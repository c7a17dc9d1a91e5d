/** The committed event publisher: each run of its task reads the events committed after the last one it handled. */
module CommittedEventPublisher {
  import opened Wrappers

  /** An event of the stream; commit sequences rise and are never reused. */
  datatype Committed = Committed(sequence: nat, id: string, aggregate: string)

  /** What resolving the key of an event's aggregate comes to. */
  datatype Resolution = Key | NoMasterKey | NoAggregateKey | Broken

  datatype PublishError = MissingSequence | DecodeFailed

  datatype Stream = Stream(log: seq<Committed>, last: nat, published: seq<Committed>, skipped: seq<Committed>)

  const FRESH: Stream := Stream([], 0, [], [])

  ghost predicate Rising(log: seq<Committed>) {
    && (forall i :: 0 <= i < |log| ==> log[i].sequence > 0)
    && forall i, j :: 0 <= i < j < |log| ==> log[i].sequence < log[j].sequence
  }

  /** SELECT ... WHERE commit_sequence > since ORDER BY commit_sequence. */
  function After(log: seq<Committed>, since: nat): seq<Committed> {
    if log == [] then [] else
      var last := log[|log| - 1];
      After(log[..|log| - 1], since) + if last.sequence > since then [last] else []
  }

  function Select(events: seq<Committed>, resolve: Committed -> Resolution, kind: Resolution): seq<Committed> {
    if events == [] then [] else
      Select(events[..|events| - 1], resolve, kind)
      + if resolve(events[|events| - 1]) == kind then [events[|events| - 1]] else []
  }

  predicate AnyIs(events: seq<Committed>, resolve: Committed -> Resolution, kind: Resolution) {
    exists i :: 0 <= i < |events| && resolve(events[i]) == kind
  }

  /** What one run does: nothing at all when the master key is missing or an event cannot be decoded, and
      otherwise every event read is either published or, without its aggregate's key, passed over. */
  function Process(s: Stream, resolve: Committed -> Resolution): Stream {
    var events := After(s.log, s.last);
    if events == [] || AnyIs(events, resolve, NoMasterKey) || AnyIs(events, resolve, Broken) then s
    else s.(last := events[|events| - 1].sequence, published := s.published + Select(events, resolve, Key),
            skipped := s.skipped + Select(events, resolve, NoAggregateKey))
  }

  /** Event k cannot be decoded, and nothing before it stops the run. */
  ghost predicate BreaksAt(events: seq<Committed>, resolve: Committed -> Resolution, k: nat) {
    k < |events| && resolve(events[k]) == Broken
    && forall j :: 0 <= j < k ==> resolve(events[j]) == Key || resolve(events[j]) == NoAggregateKey
  }

  class Publisher {
    var last: nat
    /** The value the next start will resume from. */
    var saved: nat
    /** What has been handed to the event bus. */
    var published: seq<Committed>

    constructor ()
      ensures last == 0 && saved == 0 && published == []
    {
      last, saved, published := 0, 0, [];
    }

    method RunProcessStream(log: seq<Committed>, resolve: Committed -> Resolution, ghost skipped: seq<Committed>)
      returns (error: Option<PublishError>)
      requires Rising(log) && saved == last
      modifies this
      ensures saved == last
      ensures var s := Process(Stream(log, old(last), old(published), skipped), resolve);
              last == s.last && published == s.published
      ensures error == Some(DecodeFailed) <==> exists k :: BreaksAt(After(log, old(last)), resolve, k)
      ensures error != Some(MissingSequence)
    {
      hide After, Rising, AnyIs;
      var events := After(log, last);
      if events == [] {
        return None;
      }
      var processedMax := last;
      assert !AnyIs([], resolve, NoMasterKey) && !AnyIs([], resolve, Broken) by { NoneOfKind(resolve); }
      var toPublish: seq<Committed> := [];
      for k := 0 to |events|
        invariant last == old(last) && saved == old(saved) && published == old(published)
        invariant toPublish == Select(events[..k], resolve, Key)
        invariant processedMax == if k == 0 then last else events[k - 1].sequence
        invariant k > 0 ==> processedMax > last
        invariant !AnyIs(events[..k], resolve, NoMasterKey) && !AnyIs(events[..k], resolve, Broken)
        invariant forall j :: 0 <= j < k ==> resolve(events[j]) == Key || resolve(events[j]) == NoAggregateKey
      {
        assert events[..k + 1][..k] == events[..k];
        var event := events[k];
        ReadInOrder(log, last, k);
        if event.sequence == 0 {
          return Some(MissingSequence);
        }
        var resolution := resolve(event);
        FirstOfKind(events, resolve, k);
        if resolution == NoMasterKey {
          return None;
        }
        if resolution == Broken {
          assert BreaksAt(events, resolve, k);
          return Some(DecodeFailed);
        }
        if resolution == Key {
          toPublish := toPublish + [event];
        }
        if event.sequence > processedMax {
          processedMax := event.sequence;
        }
      }
      assert events[..|events|] == events;
      published := published + toPublish;
      if processedMax > last {
        last := processedMax;
        saved := processedMax;
      }
      return None;
    }
  }

  lemma ReadInOrder(log: seq<Committed>, since: nat, k: nat)
    requires Rising(log) && k < |After(log, since)|
    ensures var r := After(log, since); r[k].sequence > if k == 0 then since else r[k - 1].sequence
  {
    hide After;
    AfterFacts(log, since);
    assert After(log, since)[k] in After(log, since);
  }

  lemma NoneOfKind(resolve: Committed -> Resolution)
    ensures forall kind :: !AnyIs([], resolve, kind)
  {
  }

  /** The first k events are not of the kind, so whether some of the first k + 1 is depends on the last of them. */
  lemma FirstOfKind(events: seq<Committed>, resolve: Committed -> Resolution, k: nat)
    requires k < |events|
    ensures forall kind :: AnyIs(events[..k + 1], resolve, kind) <==>
                             AnyIs(events[..k], resolve, kind) || resolve(events[k]) == kind
    ensures AnyIs(events, resolve, resolve(events[k]))
  {
    forall kind ensures AnyIs(events[..k + 1], resolve, kind) <==>
                          AnyIs(events[..k], resolve, kind) || resolve(events[k]) == kind
    {
      if AnyIs(events[..k], resolve, kind) {
        var i :| 0 <= i < k && resolve(events[..k][i]) == kind;
        assert events[..k + 1][i] == events[i];
      }
      if resolve(events[k]) == kind { assert events[..k + 1][k] == events[k]; }
      if AnyIs(events[..k + 1], resolve, kind) {
        var i :| 0 <= i < k + 1 && resolve(events[..k + 1][i]) == kind;
        if i < k { assert events[..k][i] == events[i]; }
      }
    }
  }

  lemma {:induction false} AfterMembers(log: seq<Committed>, since: nat)
    ensures forall e :: e in After(log, since) <==> e in log && e.sequence > since
  {
    if log != [] {
      AfterMembers(log[..|log| - 1], since);
      assert log == log[..|log| - 1] + [log[|log| - 1]];
    }
  }

  lemma InitRises(log: seq<Committed>)
    requires Rising(log) && log != []
    ensures Rising(log[..|log| - 1]) && log[|log| - 1].sequence > 0
    ensures forall e :: e in log[..|log| - 1] ==> e.sequence < log[|log| - 1].sequence
  {
  }

  lemma SnocRises(log: seq<Committed>, c: Committed)
    requires Rising(log) && c.sequence > 0 && forall e :: e in log ==> e.sequence < c.sequence
    ensures Rising(log + [c])
  {
  }

  lemma {:induction false} AfterRises(log: seq<Committed>, since: nat)
    requires Rising(log)
    ensures Rising(After(log, since))
  {
    if log != [] {
      var init, last := log[..|log| - 1], log[|log| - 1];
      InitRises(log);
      AfterRises(init, since);
      AfterMembers(init, since);
      if last.sequence > since {
        SnocRises(After(init, since), last);
      } else {
        assert After(log, since) == After(init, since);
      }
    }
  }

  lemma AfterFacts(log: seq<Committed>, since: nat)
    requires Rising(log)
    ensures Rising(After(log, since))
    ensures forall e :: e in After(log, since) <==> e in log && e.sequence > since
  {
    AfterRises(log, since);
    AfterMembers(log, since);
  }

  // Every run

  datatype Step = Commit(events: seq<Committed>) | RunTask(resolve: Committed -> Resolution)

  ghost predicate Enabled(s: Stream, step: Step) {
    step.Commit? ==> Rising(s.log + step.events)
  }

  ghost function Next(s: Stream, step: Step): Stream {
    match step
    case Commit(events) => s.(log := s.log + events)
    case RunTask(resolve) => Process(s, resolve)
  }

  ghost predicate Handled(s: Stream, e: Committed) {
    e in s.published || e in s.skipped
  }

  /** The events up to the last handled one have each been published once, in commit order, or passed over. */
  ghost predicate StreamOk(s: Stream) {
    && Rising(s.log) && Rising(s.published)
    && (forall e :: e in s.published ==> e in s.log && e.sequence <= s.last && e !in s.skipped)
    && (forall e :: e in s.skipped ==> e in s.log && e.sequence <= s.last)
    && (forall e :: e in s.log && e.sequence <= s.last ==> Handled(s, e))
  }

  lemma {:induction false} SelectMembers(events: seq<Committed>, resolve: Committed -> Resolution, kind: Resolution)
    ensures forall e :: e in Select(events, resolve, kind) <==> e in events && resolve(e) == kind
  {
    if events != [] {
      SelectMembers(events[..|events| - 1], resolve, kind);
      assert events == events[..|events| - 1] + [events[|events| - 1]];
    }
  }

  lemma SelectSome(events: seq<Committed>, resolve: Committed -> Resolution, kind: Resolution)
    ensures Select(events, resolve, kind) != [] ==> exists e :: e in events && resolve(e) == kind
  {
    SelectMembers(events, resolve, kind);
    var selected := Select(events, resolve, kind);
    assert selected != [] ==> selected[0] in selected;
  }

  lemma {:induction false} SelectFacts(events: seq<Committed>, resolve: Committed -> Resolution, kind: Resolution)
    requires Rising(events)
    ensures Rising(Select(events, resolve, kind))
    ensures forall e :: e in Select(events, resolve, kind) <==> e in events && resolve(e) == kind
  {
    SelectMembers(events, resolve, kind);
    if events != [] {
      var init, last := events[..|events| - 1], events[|events| - 1];
      InitRises(events);
      SelectFacts(init, resolve, kind);
      if resolve(last) == kind {
        SnocRises(Select(init, resolve, kind), last);
      } else {
        assert Select(events, resolve, kind) == Select(init, resolve, kind);
      }
    }
  }

  lemma RisingConcat(a: seq<Committed>, b: seq<Committed>)
    requires Rising(a) && Rising(b) && forall x, y :: x in a && y in b ==> x.sequence < y.sequence
    ensures Rising(a + b)
  {
  }

  lemma ProcessKeepsOk(s: Stream, resolve: Committed -> Resolution)
    requires StreamOk(s)
    ensures StreamOk(Process(s, resolve))
  {
    hide Rising, Select, After;
    var events, t := After(s.log, s.last), Process(s, resolve);
    AfterFacts(s.log, s.last);
    if t != s {
      SelectFacts(events, resolve, Key);
      SelectFacts(events, resolve, NoAggregateKey);
      LastIsTop(events);
      RisingConcat(s.published, Select(events, resolve, Key));
      forall e | e in s.log && e.sequence <= t.last ensures Handled(t, e) {
        if e.sequence <= s.last {
          assert Handled(s, e);
        } else {
          assert e in events;
          var i :| 0 <= i < |events| && events[i] == e;
          assert resolve(events[i]) == Key || resolve(events[i]) == NoAggregateKey;
          assert e in Select(events, resolve, Key) || e in Select(events, resolve, NoAggregateKey);
        }
      }
    }
  }

  lemma LastIsTop(events: seq<Committed>)
    requires Rising(events) && events != []
    ensures forall e :: e in events ==> e.sequence <= events[|events| - 1].sequence
  {
  }

  function Top(log: seq<Committed>): nat {
    if log == [] then 0 else log[|log| - 1].sequence
  }

  lemma CommitKeepsOk(s: Stream, events: seq<Committed>)
    requires StreamOk(s) && Rising(s.log + events) && s.last <= Top(s.log)
    ensures StreamOk(s.(log := s.log + events))
  {
    var t := s.(log := s.log + events);
    forall k | 0 <= k < |events| ensures events[k].sequence > s.last {
      assert t.log[|s.log| + k] == events[k];
      assert s.log != [] ==> t.log[|s.log| - 1] == s.log[|s.log| - 1];
    }
    forall e | e in t.log && e.sequence <= t.last ensures Handled(t, e) {
      assert e in s.log;
      assert Handled(s, e);
    }
  }

  lemma LastStaysBehind(s: Stream, step: Step)
    requires Rising(s.log) && s.last <= Top(s.log) && Enabled(s, step)
    ensures Next(s, step).last <= Top(Next(s, step).log)
  {
    hide After, Select, AnyIs;
    AfterFacts(s.log, s.last);
    match step
    case Commit(events) =>
      if events != [] && s.log != [] {
        assert (s.log + events)[|s.log| - 1].sequence < (s.log + events)[|s.log + events| - 1].sequence;
      }
      assert events == [] ==> s.log + events == s.log;
    case RunTask(resolve) =>
      var read := After(s.log, s.last);
      if read != [] {
        assert read[|read| - 1] in read && read[|read| - 1] in s.log;
        LastIsTop(s.log);
      }
  }

  ghost predicate Legal(s: Stream, steps: seq<Step>)
    decreases |steps|
  {
    steps == [] || (Enabled(s, steps[0]) && Legal(Next(s, steps[0]), steps[1..]))
  }

  ghost function Run(s: Stream, steps: seq<Step>): Stream
    decreases |steps|
  {
    if steps == [] then s else Run(Next(s, steps[0]), steps[1..])
  }

  lemma {:induction false} RunKeepsOk(s: Stream, steps: seq<Step>)
    requires StreamOk(s) && s.last <= Top(s.log) && Legal(s, steps)
    ensures StreamOk(Run(s, steps)) && Run(s, steps).last <= Top(Run(s, steps).log)
    decreases |steps|
  {
    hide Next, Enabled, Top;
    if steps != [] {
      NextKeepsOk(s, steps[0]);
      RunKeepsOk(Next(s, steps[0]), steps[1..]);
    }
  }

  lemma NextKeepsOk(s: Stream, step: Step)
    requires StreamOk(s) && s.last <= Top(s.log) && Enabled(s, step)
    ensures StreamOk(Next(s, step)) && Next(s, step).last <= Top(Next(s, step).log)
  {
    hide Process, Top, Handled;
    LastStaysBehind(s, step);
    match step
    case Commit(events) => CommitKeepsOk(s, events);
    case RunTask(resolve) => ProcessKeepsOk(s, resolve);
  }

  /** In every run the published events are in commit order without repetition, and nothing up to the last handled
      event is lost: it was published, or passed over for want of its aggregate's key, never both. */
  lemma PublishedOnceInOrder(steps: seq<Step>)
    requires Legal(FRESH, steps)
    ensures StreamOk(Run(FRESH, steps))
  {
    RunKeepsOk(FRESH, steps);
  }

  ghost predicate Unread(s: Stream, e: Committed) {
    e in s.log && e.sequence > s.last
  }

  ghost predicate Blocked(s: Stream, resolve: Committed -> Resolution) {
    exists e :: Unread(s, e) && (resolve(e) == NoMasterKey || resolve(e) == Broken)
  }

  /** A run stops before it has done anything if and only if some unread event lacks the master key or cannot be
      decoded.  Otherwise it reads to the end: what has its key joins the published events, behind them, and what has
      no aggregate key the skipped ones. */
  lemma ProcessIff(s: Stream, resolve: Committed -> Resolution)
    requires StreamOk(s) && s.last <= Top(s.log)
    ensures var t := Process(s, resolve);
            && t.log == s.log
            && (Blocked(s, resolve) ==> t == s)
            && (!Blocked(s, resolve) ==>
                  && t.last == Top(s.log)
                  && s.published <= t.published && s.skipped <= t.skipped
                  && (forall e :: e in t.published <==> e in s.published || (Unread(s, e) && resolve(e) == Key))
                  && (forall e :: e in t.skipped <==> e in s.skipped || (Unread(s, e) && resolve(e) == NoAggregateKey)))
  {
    hide Rising, Select, After, Handled;
    var events := After(s.log, s.last);
    AfterFacts(s.log, s.last);
    SelectFacts(events, resolve, Key);
    SelectFacts(events, resolve, NoAggregateKey);
    if s.log != [] {
      LastIsTop(s.log);
      assert s.log[|s.log| - 1] in s.log;
    }
    if e :| Unread(s, e) && (resolve(e) == NoMasterKey || resolve(e) == Broken) {
      var i :| 0 <= i < |events| && events[i] == e;
      assert AnyIs(events, resolve, resolve(e));
    } else {
      assert !AnyIs(events, resolve, NoMasterKey) && !AnyIs(events, resolve, Broken) by {
        forall i | 0 <= i < |events| ensures Unread(s, events[i]) { assert events[i] in events; }
      }
      if events != [] {
        LastIsTop(events);
        assert events[|events| - 1] in events && Unread(s, s.log[|s.log| - 1]);
        OneAtTop(s.log, events[|events| - 1]);
      }
    }
  }

  lemma OneAtTop(log: seq<Committed>, e: Committed)
    requires Rising(log) && e in log
    ensures e.sequence <= Top(log)
  {
  }

  ghost predicate KeysComplete(steps: seq<Step>) {
    forall k, e :: 0 <= k < |steps| && steps[k].RunTask? ==> steps[k].resolve(e) != NoAggregateKey
  }

  lemma {:induction false} NothingSkipped(s: Stream, steps: seq<Step>)
    requires KeysComplete(steps) && s.skipped == []
    ensures Run(s, steps).skipped == []
    decreases |steps|
  {
    if steps != [] {
      if steps[0].RunTask? {
        var events := After(s.log, s.last);
        SelectSome(events, steps[0].resolve, NoAggregateKey);
      }
      NothingSkipped(Next(s, steps[0]), steps[1..]);
    }
  }

  /** If no run lacks an aggregate's key, what has been published is exactly what was committed up to the last handled
      event, each once and in commit order. */
  lemma AllPublished(steps: seq<Step>)
    requires Legal(FRESH, steps) && KeysComplete(steps)
    ensures var s := Run(FRESH, steps);
            Rising(s.published) && forall e :: e in s.published <==> e in s.log && e.sequence <= s.last
  {
    hide Legal, Run, KeysComplete, Rising;
    PublishedOnceInOrder(steps);
    NothingSkipped(FRESH, steps);
    var s := Run(FRESH, steps);
    forall e | e in s.log && e.sequence <= s.last ensures e in s.published {
      assert Handled(s, e);
    }
  }

  /** A run without the master key changes nothing, so the batch is still to come; a run with every key publishes
      everything committed so far. */
  lemma DeferredNotLost(s: Stream, locked: Committed -> Resolution, open: Committed -> Resolution)
    requires StreamOk(s) && s.last <= Top(s.log)
    requires forall e :: e in s.log ==> locked(e) == NoMasterKey
    requires forall e :: e in s.log ==> open(e) == Key
    ensures Process(s, locked) == s
    ensures var t := Process(s, open);
            && t.skipped == s.skipped && t.last == Top(s.log)
            && forall e :: e in s.log ==> e in t.published || e in s.skipped
  {
    hide Select, After, Rising;
    ProcessKeepsOk(s, open);
    var events, t := After(s.log, s.last), Process(s, open);
    AfterFacts(s.log, s.last);
    if events != [] {
      assert events[0] in s.log && locked(events[0]) == NoMasterKey;
      SelectSome(events, open, NoAggregateKey);
    }
    ReachesTop(s.log, s.last);
    LastIsTopOfLog(s.log);
    forall e | e in s.log ensures e in t.published || e in s.skipped {
      assert Handled(t, e);
    }
  }

  lemma ReachesTop(log: seq<Committed>, since: nat)
    requires Rising(log) && since <= Top(log)
    ensures var r := After(log, since); Top(log) == if r == [] then since else r[|r| - 1].sequence
  {
    AfterFacts(log, since);
    if log != [] {
      var last := log[|log| - 1];
      assert last in log;
      if last.sequence > since {
        assert After(log, since)[|After(log, since)| - 1] == last;
      }
    }
  }

  lemma LastIsTopOfLog(log: seq<Committed>)
    requires Rising(log)
    ensures forall e :: e in log ==> e.sequence <= Top(log)
  {
  }
}
