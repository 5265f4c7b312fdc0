/**
 Limit texts.  A label (`heading` here) and optional notes are stored as one string, joined by a blank line, and
 taken apart again at the first blank line on every edit.
 */
module Limits {
  import opened Wrappers

  const BREAK := "\n\n"

  function ComposeBody(heading: string, notes: Option<string>): string {
    if notes.None? || notes.value == "" then heading else heading + BREAK + notes.value
  }

  /** Where the first blank line starts. */
  function FirstBreak(s: string): (at: Option<nat>)
    ensures at.Some? ==> at.value + 2 <= |s|
  {
    if |s| < 2 then None
    else if s[..2] == BREAK then Some(0)
    else
      var rest := FirstBreak(s[1..]);
      if rest.None? then None else Some(rest.value + 1)
  }

  /** `body.split("\n\n", 1)[0]`, and what follows when there is a blank line. */
  function SplitLabel(body: string): string {
    var at := FirstBreak(body);
    if at.None? then body else body[..at.value]
  }

  function SplitNotes(body: string): Option<string> {
    var at := FirstBreak(body);
    if at.None? then None else Some(body[at.value + 2..])
  }

  predicate BreakAt(s: string, i: int) {
    0 <= i && i + 2 <= |s| && s[i] == '\n' && s[i + 1] == '\n'
  }

  /** `FirstBreak` is the first of all blank lines. */
  lemma {:induction false} FirstBreakIsFirst(s: string)
    ensures FirstBreak(s).None? <==> forall i :: !BreakAt(s, i)
    ensures FirstBreak(s).Some? ==>
      BreakAt(s, FirstBreak(s).value) && forall i | i < FirstBreak(s).value :: !BreakAt(s, i)
  {
    if |s| < 2 {
    } else {
      FirstBreakIsFirst(s[1..]);
      assert s[..2] == BREAK <==> BreakAt(s, 0);
      forall i | BreakAt(s, i)
        ensures FirstBreak(s).Some? && FirstBreak(s).value <= i
      {
        assert 0 < i ==> BreakAt(s[1..], i - 1);
      }
      if FirstBreak(s).Some? {
        var at := FirstBreak(s).value;
        assert BreakAt(s, at) by {
          assert 0 < at ==> BreakAt(s[1..], at - 1);
        }
      }
    }
  }

  /** Labels a split gives back when notes follow: no blank line, and no newline to make one early. */
  predicate Separable(heading: string) {
    FirstBreak(heading).None? && (heading != "" ==> heading[|heading| - 1] != '\n')
  }

  // Empty notes are stored as no notes.
  function Normal(notes: Option<string>): Option<string> {
    if notes == Some("") then None else notes
  }

  lemma SplitAt(heading: string, notes: string)
    ensures FirstBreak(heading + BREAK + notes) == Some(|heading|) <==> Separable(heading)
  {
    var body := heading + BREAK + notes;
    FirstBreakIsFirst(heading);
    FirstBreakIsFirst(body);
    assert BreakAt(body, |heading|);
    assert forall i | 0 <= i < |heading| - 1 :: BreakAt(body, i) <==> BreakAt(heading, i);
    if heading != "" {
      assert BreakAt(body, |heading| - 1) <==> heading[|heading| - 1] == '\n';
    }
    assert forall i | |heading| - 1 <= i :: !BreakAt(heading, i);
  }

  /** The two fields come back exactly when the label is separable, or plain and without notes. */
  lemma SplitUndoesComposeIff(heading: string, notes: Option<string>)
    ensures (SplitLabel(ComposeBody(heading, notes)) == heading && SplitNotes(ComposeBody(heading, notes)) == Normal(notes))
      <==> if Normal(notes).None? then FirstBreak(heading).None? else Separable(heading)
  {
    var body := ComposeBody(heading, notes);
    if Normal(notes).Some? {
      SplitAt(heading, notes.value);
      FirstBreakIsFirst(body);
      assert BreakAt(body, |heading|);
      assert body[..|heading|] == heading && body[|heading| + 2..] == notes.value;
    }
  }

  /** The other way round, only an empty tail after the first blank line is lost. */
  lemma ComposeUndoesSplitIff(body: string)
    ensures ComposeBody(SplitLabel(body), SplitNotes(body)) == body <==> SplitNotes(body) != Some("")
  {
    FirstBreakIsFirst(body);
    var at := FirstBreak(body);
    if at.Some? {
      assert body == body[..at.value] + BREAK + body[at.value + 2..];
    }
  }

  // ---------------------------------------------------------------- stored rows

  datatype Kind = Hard | Soft
  datatype Severity = Low | Medium | High
  datatype Row = Row(sub: int, goddess: int, kind: Kind, body: string, severity: Severity, acknowledgedAt: Option<int>)
  datatype Patch = Patch(heading: Option<string>, notes: Option<string>, kind: Option<Kind>, severity: Option<Severity>)

  function Given<T>(patch: Option<T>, kept: T): T {
    if patch.Some? then patch.value else kept
  }

  /** The row after an edit by its owner. */
  function Edited(row: Row, patch: Patch): Row {
    var heading := Given(patch.heading, SplitLabel(row.body));
    var notes := if patch.notes.Some? then patch.notes else SplitNotes(row.body);
    Row(row.sub, row.goddess, Given(patch.kind, row.kind), ComposeBody(heading, notes),
      Given(patch.severity, row.severity), None)
  }

  // `goddess` is the profile of the caller, if it has one. The sub must be hers now, and the row must be hers.
  function Acknowledged(rows: map<int, Row>, users: map<int, Option<int>>, goddess: Option<int>, sub: int, id: int, now: int): Result<Row> {
    if goddess.None? then Err(Forbidden)
    else if sub !in users then Err(NotFound)
    else if users[sub] != goddess then Err(Forbidden)
    else if id !in rows || rows[id].sub != sub then Err(NotFound)
    else if rows[id].goddess != goddess.value then Err(Forbidden)
    else Ok(rows[id].(acknowledgedAt := Some(Given(rows[id].acknowledgedAt, now))))
  }

  /** Acknowledging twice is acknowledging once: a later call, by whoever may make it, returns the row as it is. */
  lemma AcknowledgedOnce(rows: map<int, Row>, users: map<int, Option<int>>, goddess: Option<int>, sub: int, id: int, now: int,
        again: Option<int>, later: int)
    requires Acknowledged(rows, users, goddess, sub, id, now).Ok?
    ensures
      var row := Acknowledged(rows, users, goddess, sub, id, now).value;
      var second := Acknowledged(rows[id := row], users, again, sub, id, later);
      (again == goddess ==> second == Ok(row)) && (again != goddess ==> second == Err(Forbidden))
  {
  }

  class LimitTable {
    var rows: map<int, Row>
    // the goddess each user is assigned to, if any
    var users: map<int, Option<int>>

    constructor (users: map<int, Option<int>>)
      ensures rows == map[] && this.users == users
    {
      rows := map[];
      this.users := users;
    }

    /** A new row for a sub with a goddess, not yet acknowledged. */
    method Create(sub: int, id: int, kind: Kind, heading: string, notes: Option<string>, severity: Severity) returns (r: Result<Row>)
      requires id !in rows
      modifies this`rows
      ensures r.Ok? <==> sub in users && users[sub].Some?
      ensures r.Ok? ==> r.value == Row(sub, users[sub].value, kind, ComposeBody(heading, notes), severity, None) && rows == old(rows)[id := r.value]
      ensures r.Err? ==> r.error == Forbidden && rows == old(rows)
    {
      if sub !in users || users[sub].None? {
        return Err(Forbidden);
      }
      var row := Row(sub, users[sub].value, kind, ComposeBody(heading, notes), severity, None);
      rows := rows[id := row];
      return Ok(row);
    }

    method UpdateOwn(sub: int, id: int, patch: Patch) returns (r: Result<Row>)
      modifies this`rows
      ensures r.Ok? <==> id in old(rows) && old(rows)[id].sub == sub
      ensures r.Ok? ==> r.value == Edited(old(rows)[id], patch) && rows == old(rows)[id := r.value]
      ensures r.Err? ==> r.error == NotFound && rows == old(rows)
    {
      if id !in rows || rows[id].sub != sub {
        return Err(NotFound);
      }
      var existing := rows[id];
      var heading := Given(patch.heading, SplitLabel(existing.body));
      var notes := SplitNotes(existing.body);
      if patch.notes.Some? {
        notes := patch.notes;
      }
      var row := existing.(body := ComposeBody(heading, notes));
      if patch.kind.Some? {
        row := row.(kind := patch.kind.value);
      }
      if patch.severity.Some? {
        row := row.(severity := patch.severity.value);
      }
      row := row.(acknowledgedAt := None);
      rows := rows[id := row];
      return Ok(row);
    }

    /** A second acknowledgement keeps the first time stamp. */
    method Acknowledge(goddess: Option<int>, sub: int, id: int, now: int) returns (r: Result<Row>)
      modifies this`rows
      ensures r == Acknowledged(old(rows), users, goddess, sub, id, now)
      ensures rows == if r.Ok? then old(rows)[id := r.value] else old(rows)
    {
      if goddess.None? {
        return Err(Forbidden);
      }
      if sub !in users {
        return Err(NotFound);
      }
      if users[sub] != goddess {
        return Err(Forbidden);
      }
      if id !in rows || rows[id].sub != sub {
        return Err(NotFound);
      }
      if rows[id].goddess != goddess.value {
        return Err(Forbidden);
      }
      if rows[id].acknowledgedAt.None? {
        rows := rows[id := rows[id].(acknowledgedAt := Some(now))];
      }
      return Ok(rows[id]);
    }

    method DeleteOwn(sub: int, id: int) returns (r: Result<()>)
      modifies this`rows
      ensures r.Ok? <==> id in old(rows) && old(rows)[id].sub == sub
      ensures rows == if r.Ok? then old(rows) - {id} else old(rows)
    {
      if id !in rows || rows[id].sub != sub {
        return Err(NotFound);
      }
      rows := rows - {id};
      return Ok(());
    }
  }

  /** Only the goddess the sub is assigned to, on her own row of that sub, and it keeps everything but the stamp. */
  lemma AcknowledgedIff(rows: map<int, Row>, users: map<int, Option<int>>, goddess: Option<int>, sub: int, id: int, now: int)
    ensures
      var r := Acknowledged(rows, users, goddess, sub, id, now);
      && (r.Ok? <==>
           (exists g :: goddess == Some(g) && sub in users && users[sub] == Some(g)
             && id in rows && rows[id].sub == sub && rows[id].goddess == g))
      && (r.Ok? ==> r.value.acknowledgedAt == (if rows[id].acknowledgedAt.Some? then rows[id].acknowledgedAt else Some(now)))
      && (r.Ok? ==> r.value == rows[id].(acknowledgedAt := r.value.acknowledgedAt))
  {
  }

  // ---------------------------------------------------------------- the body as two fields

  /** What a sub believes a limit to be: two fields that each patch sets or leaves alone. */
  datatype Fields = Fields(heading: string, notes: Option<string>)

  function Patched(f: Fields, patch: Patch): Fields {
    Fields(Given(patch.heading, f.heading), Normal(if patch.notes.Some? then patch.notes else f.notes))
  }

  function PatchedAll(f: Fields, patches: seq<Patch>): Fields {
    if patches == [] then f else Patched(PatchedAll(f, patches[..|patches| - 1]), patches[|patches| - 1])
  }

  function EditedAll(row: Row, patches: seq<Patch>): Row {
    if patches == [] then row else Edited(EditedAll(row, patches[..|patches| - 1]), patches[|patches| - 1])
  }

  predicate SeparablePatches(patches: seq<Patch>) {
    forall i | 0 <= i < |patches| && patches[i].heading.Some? :: Separable(patches[i].heading.value)
  }

  /**
   Under any sequence of edits whose labels are separable, the stored body is the body of the
   two fields edited on their own; an edited row is never left acknowledged.
   */
  lemma {:induction false} BodyIsTwoFields(row: Row, f: Fields, patches: seq<Patch>)
    requires row.body == ComposeBody(f.heading, f.notes) && Separable(f.heading) && Normal(f.notes) == f.notes
    requires SeparablePatches(patches)
    ensures var f' := PatchedAll(f, patches);
      && EditedAll(row, patches).body == ComposeBody(f'.heading, f'.notes)
      && Separable(f'.heading) && Normal(f'.notes) == f'.notes
    ensures patches != [] ==> EditedAll(row, patches).acknowledgedAt.None?
    ensures EditedAll(row, patches).sub == row.sub && EditedAll(row, patches).goddess == row.goddess
  {
    if patches == [] {
    } else {
      var init := patches[..|patches| - 1];
      BodyIsTwoFields(row, f, init);
      SplitUndoesComposeIff(PatchedAll(f, init).heading, PatchedAll(f, init).notes);
    }
  }

  /** Kind and severity are those of the last edit that names them, else those of the row. */
  lemma {:induction false} LastEditDecides(row: Row, patches: seq<Patch>, k: nat, v: nat)
    requires k <= |patches| && forall j | k <= j < |patches| :: patches[j].kind.None?
    requires v <= |patches| && forall j | v <= j < |patches| :: patches[j].severity.None?
    ensures k == 0 ==> EditedAll(row, patches).kind == row.kind
    ensures 0 < k && patches[k - 1].kind.Some? ==> EditedAll(row, patches).kind == patches[k - 1].kind.value
    ensures v == 0 ==> EditedAll(row, patches).severity == row.severity
    ensures 0 < v && patches[v - 1].severity.Some? ==> EditedAll(row, patches).severity == patches[v - 1].severity.value
  {
    hide ComposeBody, SplitLabel, SplitNotes;
    if patches == [] {
    } else {
      var n := |patches| - 1;
      LastEditDecides(row, patches[..n], if k <= n then k else n, if v <= n then v else n) by {
        assert forall j | 0 <= j < n :: patches[..n][j] == patches[j];
      }
    }
  }

  /**
   One edit keeps the fields apart, whatever it patches, exactly when the stored pair can be
   split again.  Otherwise some edit of one field changes the other.
   */
  lemma EditKeepsFieldsIff(row: Row, f: Fields)
    requires row.body == ComposeBody(f.heading, f.notes) && Normal(f.notes) == f.notes
    ensures (forall patch :: Edited(row, patch).body == ComposeBody(Patched(f, patch).heading, Patched(f, patch).notes))
      <==> if f.notes.None? then FirstBreak(f.heading).None? else Separable(f.heading)
  {
    SplitUndoesComposeIff(f.heading, f.notes);
    var heading := SplitLabel(row.body);
    if heading != f.heading {
      // dropping the notes shows the label
      var patch := Patch(None, Some(""), None, None);
      assert Edited(row, patch).body == heading && Patched(f, patch) == Fields(f.heading, None);
    }
  }

  /** A label that ends in a newline loses it to the notes on the next edit. */
  lemma TrailingNewlineMoves()
    ensures var body := ComposeBody("a\n", Some("b")); SplitLabel(body) == "a" && SplitNotes(body) == Some("\nb")
  {
    var body := ComposeBody("a\n", Some("b"));
    assert body == "a\n\n\nb";
    FirstBreakIsFirst(body);
    assert BreakAt(body, 1) && !BreakAt(body, 0);
    assert FirstBreak(body) == Some(1);
  }
}
