/** The periodic task that republishes the runtime head (src/main.rs). */
module Publisher {
  import opened Text
  import opened Ipld

  /** What the task remembers: the head of its last complete publish, and when. */
  datatype Record = Record(cid: Option<Cid>, at: nat)

  /** One tick: the clock when it fires, the head it reads, the outcome of each
      step, and the clock when it is done. */
  datatype Tick = Tick(now: nat, head: Option<Cid>, validCid: bool, bundleOk: bool, buildOk: bool,
                       encodeOk: bool, didOk: bool, ipnsOk: bool, done: nat)

  /** Time since an instant, never negative. */
  function Elapsed(now: nat, since: nat): nat {
    if now >= since then now - since else 0
  }

  /** The task starts as if it had published one warm period ago. */
  function Initial(now: nat, warm: nat): Record {
    Record(None, if now >= warm then now - warm else now)
  }

  predicate Due(r: Record, t: Tick, warm: nat) {
    t.head.Some? && (r.cid != t.head || Elapsed(t.now, r.at) >= warm)
  }

  /** The two publishes are tried once the document can be put together. */
  predicate Attempts(r: Record, t: Tick, warm: nat) {
    Due(r, t, warm) && t.validCid && t.bundleOk && t.buildOk && t.encodeOk
  }

  predicate Publishes(r: Record, t: Tick, warm: nat) {
    Attempts(r, t, warm) && t.didOk && t.ipnsOk
  }

  function Step(r: Record, t: Tick, warm: nat): Record {
    if Publishes(r, t, warm) then Record(t.head, t.done) else r
  }

  function Run(r: Record, ts: seq<Tick>, warm: nat): Record
    decreases |ts|
  {
    if ts == [] then r else Step(Run(r, ts[..|ts| - 1], warm), ts[|ts| - 1], warm)
  }

  class Publisher {
    const warm: nat
    var lastPublishedCid: Option<Cid>
    var lastPublishedAt: nat

    ghost function Value(): Record reads this { Record(lastPublishedCid, lastPublishedAt) }

    constructor (now: nat, warm: nat)
      ensures this.warm == warm && Value() == Initial(now, warm)
    {
      this.warm := warm;
      lastPublishedCid := None;
      lastPublishedAt := if now >= warm then now - warm else now;
    }

    /** One round of the loop; `tried` counts the publishes that were started. */
    method OnTick(t: Tick) returns (tried: nat)
      modifies this
      ensures Value() == Step(old(Value()), t, warm)
      ensures tried == if Attempts(old(Value()), t, warm) then 2 else 0
    {
      if t.head.None? { return 0; }
      var cidChanged := lastPublishedCid != t.head;
      var warmElapsed := Elapsed(t.now, lastPublishedAt) >= warm;
      if !cidChanged && !warmElapsed { return 0; }
      if !t.validCid { return 0; }
      if !t.bundleOk { return 0; }
      if !t.buildOk { return 0; }
      if !t.encodeOk { return 0; }
      tried := 2;
      if t.didOk && t.ipnsOk {
        lastPublishedCid := t.head;
        lastPublishedAt := t.done;
      }
    }
  }

  // ── What a run can have recorded ────────────────────────────────────────────

  ghost predicate CompletesAt(r: Record, ts: seq<Tick>, warm: nat, i: int) {
    0 <= i < |ts| && Publishes(Run(r, ts[..i], warm), ts[i], warm)
  }

  /** The record is exactly the last tick that completed both publishes, or the
      initial one when no tick did. */
  lemma {:induction false} RecordIsLastCompleteTick(r: Record, ts: seq<Tick>, warm: nat) returns (last: int)
    ensures -1 <= last < |ts|
    ensures forall j :: last < j < |ts| ==> !CompletesAt(r, ts, warm, j)
    ensures last >= 0 ==> CompletesAt(r, ts, warm, last)
    ensures Run(r, ts, warm) == if last == -1 then r else Record(ts[last].head, ts[last].done)
    decreases |ts|
  {
    if ts == [] {
      last := -1;
    } else {
      var n := |ts| - 1;
      var before := ts[..n];
      last := RecordIsLastCompleteTick(r, before, warm);
      forall i | 0 <= i < n ensures CompletesAt(r, ts, warm, i) <==> CompletesAt(r, before, warm, i) {
        assert before[..i] == ts[..i];
      }
      if Publishes(Run(r, before, warm), ts[n], warm) {
        last := n;
      }
    }
  }

  // ── The rule of one tick ────────────────────────────────────────────────────

  /** There is a head, and it is new or the warm period has passed since the record. */
  predicate WantsPublishing(r: Record, t: Tick, warm: nat) {
    t.head.Some? && (r.cid != t.head || t.now >= r.at + warm || warm == 0)
  }

  /** A tick tries both publishes if and only if that is so and the document can be
      put together for a valid head. */
  lemma TriesIff(r: Record, t: Tick, warm: nat)
    ensures Attempts(r, t, warm) <==> WantsPublishing(r, t, warm) && t.validCid && t.bundleOk && t.buildOk && t.encodeOk
  {}

  /** When nothing fails, the tick's head and end are the new record if and only if
      the head changed or the warm period has passed, or that was the record before;
      otherwise the record stays. */
  lemma RecordsIff(r: Record, t: Tick, warm: nat)
    requires t.head.Some? && CanPublish(t)
    ensures Step(r, t, warm) == Record(t.head, t.done) <==>
              r.cid != t.head || t.now >= r.at + warm || warm == 0 || r == Record(t.head, t.done)
    ensures Step(r, t, warm) == Record(t.head, t.done) || Step(r, t, warm) == r
  {}

  /** Any tick on which something fails leaves the record alone. */
  lemma FailuresRecordNothing(r: Record, t: Tick, warm: nat)
    requires t.head.None? || !CanPublish(t)
    ensures Step(r, t, warm) == r
  {}

  /** An unchanged head does not lapse: once the warm period has passed, the next
      tick on which nothing fails publishes it again, however many failed before. */
  lemma {:induction false} UnchangedHeadIsRepublished(r: Record, ts: seq<Tick>, t: Tick, warm: nat)
    requires t.head.Some? && CanPublish(t) && t.now >= r.at + warm
    requires forall i :: 0 <= i < |ts| ==> ts[i].head == t.head && !CanPublish(ts[i])
    ensures Run(r, ts + [t], warm) == Record(t.head, t.done)
    decreases |ts|
  {
    assert (ts + [t])[..|ts|] == ts;
    NothingCompletes(r, ts, warm);
  }

  lemma {:induction false} NothingCompletes(r: Record, ts: seq<Tick>, warm: nat)
    requires forall i :: 0 <= i < |ts| ==> !CanPublish(ts[i])
    ensures Run(r, ts, warm) == r
    decreases |ts|
  {
    if ts != [] {
      NothingCompletes(r, ts[..|ts| - 1], warm);
    }
  }

  /** A recorded head was published to both places by one and the same tick. */
  lemma RecordedHeadWasPublished(now: nat, ts: seq<Tick>, warm: nat, c: Cid)
    requires Run(Initial(now, warm), ts, warm).cid == Some(c)
    ensures exists t :: t in ts && t.head == Some(c) && t.didOk && t.ipnsOk && t.validCid
  {}

  predicate CanPublish(t: Tick) {
    t.validCid && t.bundleOk && t.buildOk && t.encodeOk && t.didOk && t.ipnsOk
  }

  /** Once the head has settled, one tick on which nothing fails is enough: from
      then on the record is that head, whatever fails later. */
  lemma {:induction false} SettledHeadGetsRecorded(r: Record, ts: seq<Tick>, warm: nat, c: Cid)
    requires forall i :: 0 <= i < |ts| ==> ts[i].head == Some(c)
    requires r.cid == Some(c) || exists i :: 0 <= i < |ts| && CanPublish(ts[i])
    ensures Run(r, ts, warm).cid == Some(c)
    decreases |ts|
  {
    if ts != [] {
      var n := |ts| - 1;
      if r.cid == Some(c) || exists i :: 0 <= i < n && CanPublish(ts[i]) {
        if r.cid != Some(c) {
          var i :| 0 <= i < n && CanPublish(ts[i]);
          assert ts[..n][i] == ts[i];
        }
        SettledHeadGetsRecorded(r, ts[..n], warm, c);
      } else {
        assert CanPublish(ts[n]);
      }
    }
  }

  // ── How often an unchanged head is published ────────────────────────────────

  /** Time does not run backwards, within a tick or between ticks. */
  ghost predicate Monotone(since: nat, ts: seq<Tick>)
    decreases |ts|
  {
    ts != [] ==> since <= ts[0].now <= ts[0].done && Monotone(ts[0].done, ts[1..])
  }

  ghost function Published(r: Record, ts: seq<Tick>, warm: nat): nat
    decreases |ts|
  {
    if ts == [] then 0
    else (if Publishes(r, ts[0], warm) then 1 else 0) + Published(Step(r, ts[0], warm), ts[1..], warm)
  }

  function End(since: nat, ts: seq<Tick>): nat {
    if ts == [] then since else ts[|ts| - 1].done
  }

  /** A due head whose tick did not complete stays due, so every later tick tries
      again, however soon it fires. */
  lemma {:induction false} FailuresAreRetriedEveryTick(r: Record, since: nat, ts: seq<Tick>, warm: nat, c: Cid, i: nat)
    requires Monotone(since, ts) && i < |ts|
    requires forall j :: 0 <= j < i ==> ts[j].head == Some(c) && !CanPublish(ts[j])
    requires ts[i].head == Some(c) && Due(r, ts[0], warm)
    ensures Run(r, ts[..i], warm) == r && Due(r, ts[i], warm)
    decreases i
  {
    LaterTicks(since, ts, i);
    if i > 0 {
      assert ts[..i][..i - 1] == ts[..i - 1] && ts[..i][i - 1] == ts[i - 1];
      FailuresAreRetriedEveryTick(r, since, ts, warm, c, i - 1);
    }
  }

  lemma {:induction false} LaterTicks(since: nat, ts: seq<Tick>, i: nat)
    requires Monotone(since, ts) && i < |ts|
    ensures since <= ts[i].now && ts[0].now <= ts[i].now
    decreases i
  {
    if i > 0 {
      LaterTicks(ts[0].done, ts[1..], i - 1);
    }
  }

  /** An unchanged head is published at most once per warm period: the publishes
      after the recorded one, times the period, fit into the time that passed. */
  lemma {:induction false} WarmPeriodLimitsPublishes(r: Record, since: nat, ts: seq<Tick>, warm: nat)
    requires r.cid.Some? && r.at <= since
    requires forall i :: 0 <= i < |ts| ==> ts[i].head == r.cid
    requires Monotone(since, ts)
    ensures since <= End(since, ts)
    ensures r.at + Published(r, ts, warm) * warm <= End(since, ts)
    decreases |ts|
  {
    if ts != [] {
      var t := ts[0];
      var r' := Step(r, t, warm);
      WarmPeriodLimitsPublishes(r', t.done, ts[1..], warm);
      assert End(since, ts) == End(t.done, ts[1..]);
      if Publishes(r, t, warm) {
        assert t.now >= r.at + warm;
        Distribute(Published(r', ts[1..], warm), warm);
      }
    }
  }

  lemma Distribute(n: nat, warm: nat)
    ensures (1 + n) * warm == warm + n * warm
  {}
}
