/** The display mappings of components/nuzlocke-list.tsx: the header colour and
    the label of a status, the badge colour, and the description preview. */
module NuzlockeList {
  import opened Common

  /** The statuses the switches name. */
  predicate KnownStatus(status: string) {
    status == "active" || status == "completed" || status == "failed" || status == "archived"
  }

  /** `getStatusColor` (lines 87-100). */
  function StatusColor(status: string): string {
    match status
    case "active" => "bg-green-50"
    case "completed" => "bg-blue-50"
    case "failed" => "bg-red-50"
    case "archived" => "bg-gray-50"
    case _ => "bg-gray-50"
  }

  /** `getStatusText` (lines 102-115). */
  function StatusText(status: string): string {
    match status
    case "active" => "Activo"
    case "completed" => "Completado"
    case "failed" => "Fallido"
    case "archived" => "Archivado"
    case _ => status
  }

  /** The badge class chosen by the nested conditional of lines 37-43. */
  function BadgeClass(status: string): string {
    if status == "active" then "bg-green-100 text-green-800 border-green-300"
    else if status == "completed" then "bg-blue-100 text-blue-800 border-blue-300"
    else "bg-red-100 text-red-800 border-red-300"
  }

  /** The header is grey exactly for "archived" and for every status the switch
      does not name; the other three colours each belong to one status. */
  lemma StatusColorMeaning(status: string)
    ensures StatusColor(status) == "bg-gray-50" <==> !(status in {"active", "completed", "failed"})
    ensures StatusColor(status) == "bg-green-50" <==> status == "active"
    ensures StatusColor(status) == "bg-blue-50" <==> status == "completed"
    ensures StatusColor(status) == "bg-red-50" <==> status == "failed"
  {
  }

  /** The inverse of the label mapping on the four named statuses. */
  function StatusOfText(text: string): string {
    match text
    case "Activo" => "active"
    case "Completado" => "completed"
    case "Fallido" => "failed"
    case "Archivado" => "archived"
    case _ => text
  }

  /** A named status is shown translated and every other status as it is; the
      label of a named status gives the status back. */
  lemma StatusTextMeaning(status: string)
    ensures StatusText(status) == status <==> !KnownStatus(status)
    ensures KnownStatus(status) ==> StatusOfText(StatusText(status)) == status
  {
  }

  /** Two different named statuses never share a label. */
  lemma StatusTextInjectiveOnKnown(s: string, t: string)
    requires KnownStatus(s) && KnownStatus(t) && StatusText(s) == StatusText(t)
    ensures s == t
  {
    StatusTextMeaning(s);
    StatusTextMeaning(t);
  }

  /** The badge is green for "active", blue for "completed" and red for every
      other status, so an archived or unknown nuzlocke has a grey header and a
      red badge. */
  lemma BadgeClassMeaning(status: string)
    ensures BadgeClass(status) == "bg-green-100 text-green-800 border-green-300" <==> status == "active"
    ensures BadgeClass(status) == "bg-blue-100 text-blue-800 border-blue-300" <==> status == "completed"
    ensures BadgeClass(status) == "bg-red-100 text-red-800 border-red-300" <==> !(status in {"active", "completed"})
    ensures !(status in {"active", "completed", "failed"}) ==>
      StatusColor(status) == "bg-gray-50" && BadgeClass(status) == "bg-red-100 text-red-800 border-red-300"
  {
  }

  /** The text in the card footer (line 73): the first 50 characters of a
      non-empty description followed by "...", or "Sin descripción". */
  function DescriptionPreview(description: Option<string>): string {
    match description
    case Some(d) => if d != "" then d[..if |d| < 50 then |d| else 50] + "..." else "Sin descripci\U{00F3}n"
    case None => "Sin descripci\U{00F3}n"
  }

  /** A non-empty description is cut to at most 50 characters and "..." is
      always appended, even when nothing was cut; a description of at most 50
      characters can be read back from the preview. */
  lemma DescriptionPreviewMeaning(description: Option<string>)
    ensures description.None? || description.value == "" ==> DescriptionPreview(description) == "Sin descripci\U{00F3}n"
    ensures description.Some? && description.value != "" ==>
      var p := DescriptionPreview(description);
      var d := description.value;
      && |p| == (if |d| < 50 then |d| else 50) + 3
      && p[|p| - 3..] == "..."
      && p[..|p| - 3] <= d
    ensures description.Some? && 0 < |description.value| <= 50 ==>
      var p := DescriptionPreview(description);
      p[..|p| - 3] == description.value
  {
    if description.Some? && description.value != "" {
      var d := description.value;
      var n := if |d| < 50 then |d| else 50;
      var p := DescriptionPreview(description);
      assert p == d[..n] + "...";
      assert p[..|p| - 3] == d[..n];
    }
  }
}
