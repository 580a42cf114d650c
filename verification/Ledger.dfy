/** Every interleaving of the cache's lock regions. Requests answer, fills
    insert, and any number of sweeps, drops and flushes take keys out one at a
    time and write their rows afterwards; nothing counted is lost or counted
    twice. */
module Ledger {
  import opened Prelude
  import opened Policy
  import opened SessionCookie
  import opened CacheState

  /** `pending` holds what an evicting thread has in its hands: an entry out of
      the map, with the outcomes it has not written yet. */
  datatype State = State(
    inner: Inner,
    pending: seq<Entry>,
    recorded: seq<AuditEvent>,
    answered: seq<Cell>)

  datatype Step =
    | Fill(key: Key, sub: Text, cached: Cached, at: nat, victim: Option<Key>,
        replaced: seq<AuditEvent>, given: seq<AuditEvent>)
    | CountHit(key: Key, outcome: Outcome, now: int, path: Text, hash: nat, requestId: Option<Text>)
    | WriteOwnRow(slug: Text, cached: Cached, outcome: Outcome, now: int, path: Text, requestId: Option<Text>)
    | TakeOut(key: Key)
    | WriteRow(thread: nat, outcome: Outcome)

  const INIT: State := State(EMPTY, [], [], [])

  /** The rows of an entry that may not be there. */
  ghost predicate RowsAt(entries: map<Key, Entry>, key: Key, rows: seq<AuditEvent>) {
    if key in entries then RowsFor(rows, entries[key], entries[key].counters.Keys) else rows == []
  }

  ghost predicate Next(s: State, step: Step, t: State) {
    match step
    case Fill(key, sub, cached, at, victim, replaced, given) =>
      var entry := NewEntry(key, sub, cached, at);
      && Inserts(s.inner, key, entry, victim, t.inner)
      // Written while the lock is held: the replaced entry, then the given-up one.
      && RowsAt(s.inner.entries, key, replaced)
      && (if victim.Some? then RowsAt(Replaced(s.inner, key, entry).entries, victim.value, given) else given == [])
      && t == s.(inner := t.inner, recorded := s.recorded + replaced + given)
    case CountHit(key, o, now, path, hash, requestId) =>
      && key in s.inner.entries
      && t == s.(inner := Counted(s.inner, key, o, now, path, hash, requestId),
                 answered := s.answered + [Cell(key.slug, o)])
    case WriteOwnRow(slug, cached, o, now, path, requestId) =>
      t == s.(recorded := s.recorded + [OwnRow(slug, cached, o, now, path, requestId)],
              answered := s.answered + [Cell(slug, o)])
    case TakeOut(key) =>
      && key in s.inner.entries
      && t == s.(inner := Without(s.inner, key), pending := s.pending + [s.inner.entries[key]])
    case WriteRow(i, o) =>
      && i < |s.pending| && o in s.pending[i].counters
      && var e := s.pending[i];
         t == s.(pending := s.pending[i := e.(counters := e.counters - {o})],
                 recorded := s.recorded + [EventOf(e, o)])
  }

  function PendingCount(pending: seq<Entry>, cell: Cell): nat {
    if pending == [] then 0
    else PendingCount(pending[..|pending| - 1], cell) + EntryCount(pending[|pending| - 1], cell)
  }

  function AnsweredCount(answered: seq<Cell>, cell: Cell): nat {
    if answered == [] then 0
    else AnsweredCount(answered[..|answered| - 1], cell) + Unit(cell, answered[|answered| - 1])
  }

  /** Answered = handed over + in live entries + taken out and not yet written. */
  ghost predicate Conserved(s: State) {
    forall cell ::
      AnsweredCount(s.answered, cell)
        == RecordedCount(s.recorded, cell) + LiveCount(s.inner.entries, cell) + PendingCount(s.pending, cell)
  }

  ghost predicate PendingSane(pending: seq<Entry>) {
    forall i :: 0 <= i < |pending| ==> forall o :: o in pending[i].counters ==> Sane(pending[i].counters[o])
  }

  ghost predicate RowsSane(recorded: seq<AuditEvent>) {
    forall e :: e in recorded ==> SaneEvent(e)
  }

  ghost predicate Invariant(s: State) {
    Consistent(s.inner) && PendingSane(s.pending) && RowsSane(s.recorded) && Conserved(s)
  }

  // --- Arithmetic of the sums ---

  lemma PendingPush(pending: seq<Entry>, e: Entry, cell: Cell)
    ensures PendingCount(pending + [e], cell) == PendingCount(pending, cell) + EntryCount(e, cell)
  {
    assert (pending + [e])[..|pending|] == pending;
  }

  lemma {:induction false} PendingUpdate(pending: seq<Entry>, i: nat, e: Entry, cell: Cell)
    requires i < |pending|
    ensures PendingCount(pending[i := e], cell) + EntryCount(pending[i], cell)
         == PendingCount(pending, cell) + EntryCount(e, cell)
    decreases |pending|
  {
    var n := |pending| - 1;
    if i == n {
      assert pending[i := e][..n] == pending[..n];
    } else {
      assert pending[i := e][..n] == pending[..n][i := e];
      PendingUpdate(pending[..n], i, e, cell);
    }
  }

  lemma AnsweredPush(answered: seq<Cell>, c: Cell, cell: Cell)
    ensures AnsweredCount(answered + [c], cell) == AnsweredCount(answered, cell) + Unit(cell, c)
  {
    assert (answered + [c])[..|answered|] == answered;
  }

  // --- One step ---

  lemma RowsForSane(rows: seq<AuditEvent>, entry: Entry)
    requires RowsFor(rows, entry, entry.counters.Keys)
    requires forall o :: o in entry.counters ==> Sane(entry.counters[o])
    ensures RowsSane(rows)
  {
    forall e | e in rows ensures SaneEvent(e) {
      assert e in multiset(rows);
      assert e in EventsOf(entry, entry.counters.Keys);
    }
  }

  lemma RowsAtTotals(b: Books, key: Key, rows: seq<AuditEvent>)
    requires RowsAt(b.entries, key, rows) && EntriesSane(b.entries)
    ensures SameTotals(b, Books(b.entries - {key}, b.recorded + rows))
    ensures RowsSane(rows)
  {
    if key in b.entries {
      TakenOutTotals(b, key, rows);
      RowsForSane(rows, b.entries[key]);
    } else {
      assert b.entries - {key} == b.entries && b.recorded + rows == b.recorded;
    }
  }

  /** An entry replaced, its rows handed over. */
  lemma ReplacedTotals(b: Books, key: Key, entry: Entry, replaced: seq<AuditEvent>)
    requires RowsAt(b.entries, key, replaced) && EntriesSane(b.entries) && entry.counters == map[]
    ensures SameTotals(b, Books(b.entries[key := entry], b.recorded + replaced))
  {
    var between := Books(b.entries - {key}, b.recorded + replaced);
    RowsAtTotals(b, key, replaced);
    PutInTotals(between, key, entry);
    assert between.entries[key := entry] == b.entries[key := entry];
    SameTotalsTransitive(b, between, between.(entries := b.entries[key := entry]));
  }

  /** The books before and after the bound is kept agree. */
  lemma BoundTotals(grown: Inner, recorded: seq<AuditEvent>, victim: Option<Key>, given: seq<AuditEvent>, after: Inner)
    requires EntriesSane(grown.entries)
    requires match victim case None => after == grown case Some(v) => GivesUp(grown, v, after)
    requires if victim.Some? then RowsAt(grown.entries, victim.value, given) else given == []
    ensures SameTotals(Books(grown.entries, recorded), Books(after.entries, recorded + given))
    ensures RowsSane(given)
  {
    if victim.Some? {
      RowsAtTotals(Books(grown.entries, recorded), victim.value, given);
    } else {
      assert recorded + given == recorded;
    }
  }

  lemma FillKeeps(s: State, step: Step, t: State)
    requires Invariant(s) && step.Fill? && Next(s, step, t)
    ensures Invariant(t)
  {
    var Fill(key, sub, cached, at, victim, replaced, given) := step;
    var entry := NewEntry(key, sub, cached, at);
    var grown := Replaced(s.inner, key, entry);
    InsertsConsistent(s.inner, key, entry, victim, t.inner);
    ReplacedConsistent(s.inner, key, entry);
    ReplacedTotals(Books(s.inner.entries, s.recorded), key, entry, replaced);
    RowsAtTotals(Books(s.inner.entries, s.recorded), key, replaced);
    BoundTotals(grown, s.recorded + replaced, victim, given, t.inner);
    SameTotalsTransitive(
      Books(s.inner.entries, s.recorded), Books(grown.entries, s.recorded + replaced),
      Books(t.inner.entries, t.recorded));
    ConservedByBooks(s, t);
  }

  /** If nothing was answered or pending changed, conservation is a matter of
      the books. */
  lemma ConservedByBooks(s: State, t: State)
    requires Conserved(s) && s.pending == t.pending && s.answered == t.answered
    requires SameTotals(Books(s.inner.entries, s.recorded), Books(t.inner.entries, t.recorded))
    ensures Conserved(t)
  {
    forall cell ensures AnsweredCount(t.answered, cell)
      == RecordedCount(t.recorded, cell) + LiveCount(t.inner.entries, cell) + PendingCount(t.pending, cell)
    {
      assert Total(Books(t.inner.entries, t.recorded), cell) == Total(Books(s.inner.entries, s.recorded), cell);
    }
  }

  lemma ConservedByOneMore(s: State, t: State, here: Cell)
    requires Conserved(s) && s.pending == t.pending && t.answered == s.answered + [here]
    requires OneMore(Books(s.inner.entries, s.recorded), Books(t.inner.entries, t.recorded), here)
    ensures Conserved(t)
  {
    forall cell ensures AnsweredCount(t.answered, cell)
      == RecordedCount(t.recorded, cell) + LiveCount(t.inner.entries, cell) + PendingCount(t.pending, cell)
    {
      AnsweredPush(s.answered, here, cell);
      assert Total(Books(t.inner.entries, t.recorded), cell)
        == Total(Books(s.inner.entries, s.recorded), cell) + Unit(cell, here);
    }
  }

  lemma CountKeeps(s: State, step: Step, t: State)
    requires Invariant(s) && step.CountHit? && Next(s, step, t)
    ensures Invariant(t)
  {
    var CountHit(key, o, now, path, hash, requestId) := step;
    CountedConsistent(s.inner, key, o, now, path, hash, requestId);
    CountedTotals(s.inner, s.recorded, key, o, now, path, hash, requestId);
    ConservedByOneMore(s, t, Cell(key.slug, o));
  }

  lemma OwnRowKeeps(s: State, step: Step, t: State)
    requires Invariant(s) && step.WriteOwnRow? && Next(s, step, t)
    ensures Invariant(t)
  {
    var WriteOwnRow(slug, cached, o, now, path, requestId) := step;
    RecordedTotals(Books(s.inner.entries, s.recorded), OwnRow(slug, cached, o, now, path, requestId));
    ConservedByOneMore(s, t, Cell(slug, o));
  }

  lemma TakeOutKeeps(s: State, step: Step, t: State)
    requires Invariant(s) && step.TakeOut? && Next(s, step, t)
    ensures Invariant(t)
  {
    WithoutConsistent(s.inner, step.key);
    forall cell ensures AnsweredCount(t.answered, cell)
      == RecordedCount(t.recorded, cell) + LiveCount(t.inner.entries, cell) + PendingCount(t.pending, cell)
    {
      LiveWithout(s.inner.entries, step.key, cell);
      PendingPush(s.pending, s.inner.entries[step.key], cell);
    }
  }

  lemma WriteRowKeeps(s: State, step: Step, t: State)
    requires Invariant(s) && step.WriteRow? && Next(s, step, t)
    ensures Invariant(t)
  {
    var WriteRow(i, o) := step;
    var e := s.pending[i];
    var rest := e.(counters := e.counters - {o});
    assert Sane(e.counters[o]);
    forall cell ensures AnsweredCount(t.answered, cell)
      == RecordedCount(t.recorded, cell) + LiveCount(t.inner.entries, cell) + PendingCount(t.pending, cell)
    {
      RecordedOne(s.recorded, EventOf(e, o), cell);
      PendingUpdate(s.pending, i, rest, cell);
    }
  }

  lemma NextKeeps(s: State, step: Step, t: State)
    requires Invariant(s) && Next(s, step, t)
    ensures Invariant(t)
  {
    match step {
      case Fill(_, _, _, _, _, _, _) => FillKeeps(s, step, t);
      case CountHit(_, _, _, _, _, _) => CountKeeps(s, step, t);
      case WriteOwnRow(_, _, _, _, _, _) => OwnRowKeeps(s, step, t);
      case TakeOut(_) => TakeOutKeeps(s, step, t);
      case WriteRow(_, _) => WriteRowKeeps(s, step, t);
    }
  }

  // --- Whole runs ---

  ghost predicate Run(states: seq<State>, steps: seq<Step>) {
    && |states| == |steps| + 1 && states[0] == INIT
    && forall i :: 0 <= i < |steps| ==> Next(states[i], steps[i], states[i + 1])
  }

  /** In every state of every run the books balance, the reverse index is exact,
      the bound is kept, and every row handed over is a possible one. */
  lemma {:induction false} RunKeeps(states: seq<State>, steps: seq<Step>, i: nat)
    requires Run(states, steps) && i < |states|
    ensures Invariant(states[i])
    decreases i
  {
    if i == 0 {
      assert LiveCount(map[], Cell([], Outcome(Decision.Allow, None))) == 0;
      assert |EMPTY.entries| == 0;
    } else {
      RunKeeps(states, steps, i - 1);
      NextKeeps(states[i - 1], steps[i - 1], states[i]);
    }
  }

  /** Once every evicting thread has finished and the cache has been emptied,
      the rows handed over account for every decision answered. */
  lemma DrainedAccounts(states: seq<State>, steps: seq<Step>, i: nat, cell: Cell)
    requires Run(states, steps) && i < |states|
    requires states[i].inner.entries == map[]
    requires forall e :: e in states[i].pending ==> e.counters == map[]
    ensures RecordedCount(states[i].recorded, cell) == AnsweredCount(states[i].answered, cell)
  {
    RunKeeps(states, steps, i);
    NothingPending(states[i].pending, cell);
  }

  lemma NothingPending(pending: seq<Entry>, cell: Cell)
    requires forall e :: e in pending ==> e.counters == map[]
    ensures PendingCount(pending, cell) == 0
  {
    if pending != [] {
      assert pending[|pending| - 1] in pending;
      NothingPending(pending[..|pending| - 1], cell);
    }
  }
}
