/** The `fix_auditlog_changes` management command: every audit entry whose `changes` is a bare string
    is rewritten as the dictionary `{"message": <string>}`, inside one transaction. */
module FixAuditlogChanges {
  import opened Strings
  import opened Tables
  import opened Models

  predicate HoldsText(e: LogEntry)
  {
    e.changes.Text?
  }

  function IsText(): LogEntry -> bool
  {
    (e: LogEntry) => HoldsText(e)
  }

  /** The entry as the loop saves it. */
  function Normalised(e: LogEntry): LogEntry
  {
    if HoldsText(e) then e.(changes := Dict(map["message" := e.changes.s])) else e
  }

  /** The table after the command. */
  function Fixed(entries: seq<LogEntry>): (r: seq<LogEntry>)
    ensures |r| == |entries|
  {
    seq(|entries|, i requires 0 <= i < |entries| => Normalised(entries[i]))
  }

  function UpdatedMessage(updated: nat): string
  {
    "Updated " + NatToString(updated) + " LogEntry records."
  }

  /** `Command.handle`: the new table, the `updated` counter and the line it prints. */
  method Handle(entries: seq<LogEntry>) returns (result: seq<LogEntry>, updated: nat, message: string)
    ensures result == Fixed(entries)
    ensures updated == Count(entries, IsText())
    ensures message == UpdatedMessage(updated)
  {
    result := entries;
    updated := 0;
    var i := 0;
    while i < |entries|
      invariant 0 <= i <= |entries| && |result| == |entries|
      invariant forall j :: 0 <= j < i ==> result[j] == Normalised(entries[j])
      invariant forall j :: i <= j < |entries| ==> result[j] == entries[j]
      invariant updated == Count(entries[..i], IsText())
    {
      var entry := entries[i];
      if entry.changes.Text? {
        entry := entry.(changes := Dict(map["message" := entry.changes.s]));
        result := result[i := entry];
        updated := updated + 1;
      }
      assert entries[..i + 1][..i] == entries[..i];
      i := i + 1;
    }
    assert entries[..i] == entries;
    message := UpdatedMessage(updated);
  }

  /** A string value becomes a one-key dictionary holding it; every other value is left alone, and the
      entry's other fields are never written. */
  lemma NormalisedEntry(e: LogEntry)
    ensures e.changes.Text? ==> Normalised(e).changes == Dict(map["message" := e.changes.s])
    ensures !e.changes.Text? ==> Normalised(e) == e
    ensures Normalised(e).(changes := e.changes) == e
    ensures !HoldsText(Normalised(e))
  {
  }

  /** After the command no entry holds a string, so running it again updates nothing and changes
      nothing. */
  lemma SecondRunIsNoOp(entries: seq<LogEntry>)
    ensures Count(Fixed(entries), IsText()) == 0
    ensures Fixed(Fixed(entries)) == Fixed(entries)
  {
    CountZero(Fixed(entries), IsText());
  }
}
