/** The list-column helpers of the admin classes in admin.py: the audit-entry change summary, the
    shortened descriptions, the uploaded file's link and the renewal-date badge. */
module AdminDisplay {
  import opened Wrappers
  import opened Strings
  import opened Models

  /** Python truthiness of the `changes` JSON value: null, an empty string and an empty dict are false. */
  predicate Truthy(c: Changes)
  {
    match c
    case NullValue => false
    case Text(s) => s != ""
    case Dict(fields) => fields != map[]
  }

  /** `str(obj.changes)`: the string itself for a string value; for a dict, `dictText` is the text of
      Python's `repr`, which is not computed here. */
  function ChangesText(c: Changes, dictText: string): (t: string)
    ensures c.Text? ==> t == c.s
  {
    match c
    case Text(s) => s
    case _ => dictText
  }

  /** `LogEntryAdmin.changes_display`. */
  function ChangesDisplay(c: Changes, dictText: string): (d: string)
    ensures !Truthy(c) ==> d == ""
    ensures Truthy(c) && |ChangesText(c, dictText)| <= 120 ==> d == ChangesText(c, dictText)
    ensures Truthy(c) && |ChangesText(c, dictText)| > 120 ==>
              d == ChangesText(c, dictText)[..120] + "..." && |d| == 123
  {
    if Truthy(c) then Abbreviate(ChangesText(c, dictText), 120, 120) else ""
  }

  /** `TodoTaskAdmin.short_description`. */
  function TodoShortDescription(t: TodoTask): (d: string)
    ensures |t.description| <= 40 ==> d == t.description
    ensures |t.description| > 40 ==> d == t.description[..40] + "..."
  {
    Abbreviate(t.description, 40, 40)
  }

  /** `EmployeeUploadAdmin.short_description`. */
  function UploadShortDescription(u: EmployeeUpload): (d: string)
    ensures |u.description| <= 30 ==> d == u.description
    ensures |u.description| > 30 ==> d == u.description[..30] + "..."
  {
    Abbreviate(u.description, 30, 30)
  }

  /** The file name shown for a storage path: the part after the last `/`. */
  function FileName(f: StoredFile): (n: string)
    ensures '/' !in n
    ensures |n| <= |f.name| && n == f.name[|f.name| - |n|..]
  {
    LastField(f.name, '/')
  }

  /** The link cell: an anchor to the file with the full name as its title, or the text `No file`. */
  datatype FileCell = Anchor(href: string, title: string, text: string) | NoFile

  /** `EmployeeUploadAdmin.file_link`; a file field is true when its name is not empty. */
  function FileLink(u: EmployeeUpload): (cell: FileCell)
    ensures u.file.name == "" <==> cell == NoFile
    ensures cell.Anchor? ==> cell.href == u.file.url && cell.title == FileName(u.file)
    ensures cell.Anchor? && |cell.title| <= 15 ==> cell.text == cell.title
    ensures cell.Anchor? && |cell.title| > 15 ==> cell.text == cell.title[..12] + "..." && |cell.text| == 15
  {
    if u.file.name != "" then
      var filename := FileName(u.file);
      Anchor(u.file.url, filename, Abbreviate(filename, 15, 12))
    else
      NoFile
  }

  /** A file in a folder shows its own name, shortened beyond 15 characters. */
  lemma FileLinkShowsLastSegment(folder: string, name: string, url: string, u: EmployeeUpload)
    requires '/' !in name && name != ""
    requires u.file == StoredFile(folder + "/" + name, url)
    ensures FileLink(u).Anchor? && FileLink(u).title == name
  {
    LastFieldOfJoin(folder, '/', name);
  }

  /** The colour class of `colored_renewal_date`, with the date it shows. */
  datatype Badge = NotSet | Red(date: Day) | Yellow(date: Day) | Plain(date: Day)

  /** `EmployeeUploadAdmin.colored_renewal_date` on the day `today`. */
  function RenewalBadge(u: EmployeeUpload, today: Day): (b: Badge)
    ensures u.renewalDate.None? <==> b == NotSet
    ensures b.Red? <==> u.renewalDate.Some? && u.renewalDate.value - today <= 0
    ensures b.Yellow? <==> u.renewalDate.Some? && 1 <= u.renewalDate.value - today <= 7
    ensures b.Plain? <==> u.renewalDate.Some? && u.renewalDate.value - today > 7
    ensures b != NotSet ==> b.date == u.renewalDate.value
  {
    match u.renewalDate
    case None => NotSet
    case Some(d) =>
      var daysUntil := d - today;
      if daysUntil <= 0 then Red(d)
      else if daysUntil <= 7 then Yellow(d)
      else Plain(d)
  }

  /** As the days pass the badge only moves from plain to yellow to red. */
  lemma BadgeOnlyEscalates(u: EmployeeUpload, today: Day, later: Day)
    requires today <= later
    ensures RenewalBadge(u, today).Red? ==> RenewalBadge(u, later).Red?
    ensures RenewalBadge(u, today).Yellow? ==> !RenewalBadge(u, later).Plain?
  {
  }
}
