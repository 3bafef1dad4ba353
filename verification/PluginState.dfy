/** How the runtime tracks a plugin's state and its queued requests
    (src/plugin.rs): what a plugin wrote, what was taken for saving, and what is
    known to be saved. */
module PluginState {
  import opened Text

  type Bytes = seq<bv8>

  datatype Tracked = Tracked(pending: Option<Bytes>, persisted: Option<Bytes>, dirty: bool)

  /** What happens to a loaded plugin, one thing at a time. `Take` is a finished
      dispatch or a `save_state` trigger: it takes the pending bytes and tries to
      store them. A dispatch whose export fails takes nothing. */
  datatype Event = Write(bytes: Bytes) | Take(stored: bool)

  function Loaded(snapshot: Bytes): Tracked {
    Tracked(None, Some(snapshot), false)
  }

  function Step(s: Tracked, e: Event): Tracked {
    match e
    case Write(bytes) =>
      if s.persisted != Some(bytes) then s.(pending := Some(bytes), dirty := true) else s
    case Take(stored) =>
      if s.pending.Some? && stored then Tracked(None, s.pending, false)
      else s.(pending := None)
  }

  function Run(s: Tracked, es: seq<Event>): Tracked
    decreases |es|
  {
    if es == [] then s else Step(Run(s, es[..|es| - 1]), es[|es| - 1])
  }

  // ── Reference reading of a run ──────────────────────────────────────────────

  /** The last bytes written at all, or the loaded snapshot. */
  ghost function LastWritten(snapshot: Bytes, es: seq<Event>): Bytes
    decreases |es|
  {
    if es == [] then snapshot
    else match es[|es| - 1]
      case Write(bytes) => bytes
      case Take(_) => LastWritten(snapshot, es[..|es| - 1])
  }

  /** The writes since the last take. */
  ghost function Window(es: seq<Event>): seq<Bytes>
    decreases |es|
  {
    if es == [] then []
    else match es[|es| - 1]
      case Write(bytes) => Window(es[..|es| - 1]) + [bytes]
      case Take(_) => []
  }

  /** The latest of some writes that differs from `base`. */
  ghost function LatestDifferent(base: Bytes, ws: seq<Bytes>): Option<Bytes>
    decreases |ws|
  {
    if ws == [] then None
    else if ws[|ws| - 1] != base then Some(ws[|ws| - 1])
    else LatestDifferent(base, ws[..|ws| - 1])
  }

  /** The bytes of the last take that stored something, or the loaded snapshot. */
  ghost function LastStored(snapshot: Bytes, es: seq<Event>): Bytes
    decreases |es|
  {
    if es == [] then snapshot
    else
      var before := es[..|es| - 1];
      match es[|es| - 1]
      case Write(_) => LastStored(snapshot, before)
      case Take(stored) =>
        match LatestDifferent(LastStored(snapshot, before), Window(before))
        case Some(bytes) => if stored then bytes else LastStored(snapshot, before)
        case None => LastStored(snapshot, before)
  }

  /** The writes since the last take that stored something. */
  ghost function SinceStored(snapshot: Bytes, es: seq<Event>): seq<Bytes>
    decreases |es|
  {
    if es == [] then []
    else
      var before := es[..|es| - 1];
      match es[|es| - 1]
      case Write(bytes) => SinceStored(snapshot, before) + [bytes]
      case Take(stored) =>
        if stored && LatestDifferent(LastStored(snapshot, before), Window(before)).Some? then []
        else SinceStored(snapshot, before)
  }

  ghost predicate AnyDiffers(base: Bytes, ws: seq<Bytes>) {
    exists i :: 0 <= i < |ws| && ws[i] != base
  }

  lemma OneMoreWrite(base: Bytes, ws: seq<Bytes>, w: Bytes)
    ensures AnyDiffers(base, ws + [w]) <==> AnyDiffers(base, ws) || w != base
  {
    var all := ws + [w];
    assert all[|ws|] == w && forall i :: 0 <= i < |ws| ==> all[i] == ws[i];
  }

  /** The machine holds exactly what the run's own history says: what was stored
      last, what is waiting since the last take, and, in the flag, whether anything
      different was written since something was stored. */
  lemma {:induction false} StateIsHistory(snapshot: Bytes, es: seq<Event>)
    ensures Run(Loaded(snapshot), es).persisted == Some(LastStored(snapshot, es))
    ensures Run(Loaded(snapshot), es).pending == LatestDifferent(LastStored(snapshot, es), Window(es))
    ensures Run(Loaded(snapshot), es).dirty <==> AnyDiffers(LastStored(snapshot, es), SinceStored(snapshot, es))
    ensures Run(Loaded(snapshot), es).pending.Some? ==> Run(Loaded(snapshot), es).dirty
    decreases |es|
  {
    if es != [] {
      var before := es[..|es| - 1];
      StateIsHistory(snapshot, before);
      match es[|es| - 1] {
        case Write(bytes) =>
          var ws := Window(before);
          assert (ws + [bytes])[..|ws|] == ws;
          OneMoreWrite(LastStored(snapshot, before), SinceStored(snapshot, before), bytes);
        case Take(stored) =>
      }
    }
  }

  // ── When `dirty == false` can be believed ───────────────────────────────────

  /** A window of writes whose last one is what a save would store: either it
      differs from the persisted bytes, or none of them does. */
  ghost predicate Faithful(base: Bytes, ws: seq<Bytes>) {
    ws != [] && ws[|ws| - 1] == base ==> forall i :: 0 <= i < |ws| ==> ws[i] == base
  }

  lemma {:induction false} LatestDifferentIsSome(base: Bytes, ws: seq<Bytes>, i: nat)
    requires i < |ws| && ws[i] != base
    ensures LatestDifferent(base, ws).Some?
    decreases |ws|
  {
    if ws[|ws| - 1] == base {
      LatestDifferentIsSome(base, ws[..|ws| - 1], i);
    }
  }

  lemma {:induction false} LatestDifferentDiffers(base: Bytes, ws: seq<Bytes>)
    ensures LatestDifferent(base, ws).Some? ==> LatestDifferent(base, ws).value != base
    ensures (forall i :: 0 <= i < |ws| ==> ws[i] == base) ==> LatestDifferent(base, ws).None?
    decreases |ws|
  {
    if ws != [] && ws[|ws| - 1] == base {
      LatestDifferentDiffers(base, ws[..|ws| - 1]);
    }
  }

  /** After a window of writes and a take that can store, the persisted bytes are
      the last ones written if and only if the window was faithful. */
  lemma StoredIsLastWriteIffFaithful(s: Tracked, base: Bytes, ws: seq<Bytes>)
    requires s.persisted == Some(base) && s.pending == LatestDifferent(base, ws) && ws != []
    ensures Step(s, Take(true)).persisted == Some(ws[|ws| - 1]) <==> Faithful(base, ws)
  {}

  /** Every window of the run that a take closes, or that is still open. */
  ghost predicate AllFaithful(snapshot: Bytes, es: seq<Event>) {
    forall n :: 0 <= n <= |es| ==> Faithful(LastStored(snapshot, es[..n]), Window(es[..n]))
  }

  /** In a run of faithful windows, whatever saves fail, a clean flag means that
      nothing is waiting and the stored bytes are the last ones written. */
  lemma {:induction false} CleanMeansSaved(snapshot: Bytes, es: seq<Event>)
    requires AllFaithful(snapshot, es)
    ensures var s := Run(Loaded(snapshot), es);
      !s.dirty ==> s.pending == None && s.persisted == Some(LastWritten(snapshot, es))
    decreases |es|
  {
    StateIsHistory(snapshot, es);
    if es != [] {
      var n := |es| - 1;
      var before := es[..n];
      forall k | 0 <= k <= n ensures Faithful(LastStored(snapshot, before[..k]), Window(before[..k])) {
        assert before[..k] == es[..k];
      }
      CleanMeansSaved(snapshot, before);
      StateIsHistory(snapshot, before);
      match es[n] {
        case Write(bytes) =>
        case Take(stored) =>
          var base, ws := LastStored(snapshot, before), Window(before);
          assert Faithful(base, ws);
          if ws != [] {
            WindowEndsInLastWrite(snapshot, before);
            StoredIsLastWriteIffFaithful(Run(Loaded(snapshot), before), base, ws);
            LatestDifferentDiffers(base, ws);
          }
      }
    }
  }

  lemma WindowEndsInLastWrite(snapshot: Bytes, es: seq<Event>)
    requires Window(es) != []
    ensures LastWritten(snapshot, es) == Window(es)[|Window(es)| - 1]
  {}

  /** At most one write between takes makes every window faithful. */
  lemma OneWritePerWindowIsFaithful(snapshot: Bytes, es: seq<Event>)
    requires forall n :: 0 <= n <= |es| ==> |Window(es[..n])| <= 1
    ensures AllFaithful(snapshot, es)
  {}

  /** The first unfaithful window whose take is stored leaves a clean flag over
      bytes that are not the last ones written. */
  lemma UnfaithfulWindowLosesTheLastWrite(snapshot: Bytes, es: seq<Event>)
    requires !Faithful(LastStored(snapshot, es), Window(es))
    ensures var s := Run(Loaded(snapshot), es + [Take(true)]);
      !s.dirty && s.persisted != Some(LastWritten(snapshot, es + [Take(true)]))
  {
    var all := es + [Take(true)];
    assert all[..|all| - 1] == es;
    var base, ws := LastStored(snapshot, es), Window(es);
    StateIsHistory(snapshot, es);
    WindowEndsInLastWrite(snapshot, es);
    StoredIsLastWriteIffFaithful(Run(Loaded(snapshot), es), base, ws);
    var i :| 0 <= i < |ws| && ws[i] != base;
    LatestDifferentIsSome(base, ws, i);
  }

  /** Such a window: write something new, then go back to the stored bytes. */
  lemma RevertInOneDispatchIsLost(a: Bytes, b: Bytes)
    requires a != b
    ensures var s := Run(Loaded(a), [Write(b), Write(a), Take(true)]);
      s == Tracked(None, Some(b), false)
    ensures LastWritten(a, [Write(b), Write(a), Take(true)]) == a
  {
    var es := [Write(b), Write(a), Take(true)];
    assert es[..2] == [Write(b), Write(a)];
    assert es[..2][..1] == [Write(b)];
    assert es[..2][..1][..0] == [];
    var s := Loaded(a);
    assert Run(s, es[..2][..1]) == Step(s, Write(b));
    assert Run(s, es[..2]) == Step(Step(s, Write(b)), Write(a));
  }

  // ── The objects ─────────────────────────────────────────────────────────────

  class StateCtx {
    var pending: Option<Bytes>
    var persisted: Option<Bytes>
    var dirty: bool

    ghost function Value(): Tracked reads this { Tracked(pending, persisted, dirty) }

    constructor (snapshot: Bytes)
      ensures Value() == Loaded(snapshot)
    {
      pending, persisted, dirty := None, Some(snapshot), false;
    }

    /** The host function behind `ma_set_state`. */
    method SetState(input: Bytes)
      modifies this
      ensures Value() == Step(old(Value()), Write(input))
    {
      if persisted != Some(input) {
        pending := Some(input);
        dirty := true;
      }
    }

    method TakePending() returns (bytes: Option<Bytes>)
      modifies this`pending
      ensures bytes == old(pending) && pending == None
    {
      bytes := pending;
      pending := None;
    }

    method MarkSaved(bytes: Bytes)
      modifies this`persisted, this`dirty
      ensures persisted == Some(bytes) && !dirty
    {
      persisted := Some(bytes);
      dirty := false;
    }

    /** Take what is pending and try to store it; `stored` is the outcome of the
        upload. The same for a finished dispatch and for a triggered save. */
    method Save(stored: bool) returns (saved: Option<Bytes>)
      modifies this
      ensures Value() == Step(old(Value()), Take(stored))
      ensures saved == if stored then old(pending) else None
    {
      var bytes := TakePending();
      saved := None;
      if bytes.Some? && stored {
        MarkSaved(bytes.value);
        saved := bytes;
      }
    }
  }

  datatype CreateRequest = CreateRequest(fragment: string, kindProtocol: string, behaviourCid: string, parent: string)

  /** What one plugin call does to the request queues: the requests it makes, and
      whether the export returned. */
  datatype PluginCall = PluginCall(creates: seq<CreateRequest>, deletes: seq<string>, returned: bool)

  class RequestQueues {
    var creates: seq<CreateRequest>
    var deletes: seq<string>

    constructor ()
      ensures creates == [] && deletes == []
    {
      creates, deletes := [], [];
    }

    /** A dispatch drains the queues only when the export returned; the requests
        of a failed call stay queued for the next one. */
    method Dispatch(call: PluginCall) returns (out: Option<(seq<CreateRequest>, seq<string>)>)
      modifies this
      ensures out.Some? <==> call.returned
      ensures (creates, deletes) == Queued((old(creates), old(deletes)), call)
      ensures out.Some? ==> out.value == (old(creates) + call.creates, old(deletes) + call.deletes)
    {
      creates, deletes := creates + call.creates, deletes + call.deletes;
      if !call.returned {
        return None;
      }
      out := Some((creates, deletes));
      creates, deletes := [], [];
    }
  }

  type Requests = (seq<CreateRequest>, seq<string>)

  function Queued(q: Requests, call: PluginCall): Requests {
    if call.returned then ([], []) else (q.0 + call.creates, q.1 + call.deletes)
  }

  /** Everything handed out over a run of calls, and what is still queued. */
  function Drained(q: Requests, calls: seq<PluginCall>): (Requests, Requests)
    decreases |calls|
  {
    if calls == [] then (([], []), q)
    else
      var c := calls[0];
      var rest := Drained(Queued(q, c), calls[1..]);
      if c.returned then
        ((q.0 + c.creates + rest.0.0, q.1 + c.deletes + rest.0.1), rest.1)
      else rest
  }

  function AllCreates(calls: seq<PluginCall>): seq<CreateRequest> {
    if calls == [] then [] else calls[0].creates + AllCreates(calls[1..])
  }

  function AllDeletes(calls: seq<PluginCall>): seq<string> {
    if calls == [] then [] else calls[0].deletes + AllDeletes(calls[1..])
  }

  /** No request is lost, repeated or reordered, however many calls fail. */
  lemma {:induction false} RequestsAreConserved(q: Requests, calls: seq<PluginCall>)
    ensures var (out, left) := Drained(q, calls);
      out.0 + left.0 == q.0 + AllCreates(calls) && out.1 + left.1 == q.1 + AllDeletes(calls)
    decreases |calls|
  {
    if calls != [] {
      var c := calls[0];
      RequestsAreConserved(Queued(q, c), calls[1..]);
      var (out, left) := Drained(Queued(q, c), calls[1..]);
      assert (q.0 + c.creates + out.0) + left.0 == q.0 + c.creates + (out.0 + left.0);
      assert (q.1 + c.deletes + out.1) + left.1 == q.1 + c.deletes + (out.1 + left.1);
      assert q.0 + c.creates + AllCreates(calls[1..]) == q.0 + (c.creates + AllCreates(calls[1..]));
      assert q.1 + c.deletes + AllDeletes(calls[1..]) == q.1 + (c.deletes + AllDeletes(calls[1..]));
    }
  }
}
