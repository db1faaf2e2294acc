/** The loop shape every fetch command of both `get_data.py` copies shares: walk a list of IDs, skip
    some by a rule, build one ingest object per remaining ID and save it, and turn an exception into
    an entry of the error log or into an abort, depending on where the `try` sits. The ingest call
    itself (construction and `save_all`) is an oracle. */
module Ingestion {
  import opened Wrappers
  import opened Dicts

  /** What one attempt does: the `...Ingest(...)` constructor raises, or it succeeds and the saving
      calls after it raise, or both succeed. */
  datatype Ingest = Ingested | ConstructRaised(error: Exception) | SaveRaised(error: Exception)

  /** Where the `try` sits and what its `except` does.
      CatchConstruct: only the constructor is guarded; an exception there is recorded, one from
        saving propagates.
      CatchAll: constructor and saving are guarded; every exception is recorded.
      CatchAllFailingRecord: both are guarded, but the handler writes into a key of the log that was
        never created, so it raises `KeyError(logKey)` itself. */
  datatype Policy = CatchConstruct | CatchAll | CatchAllFailingRecord(logKey: string)

  /** What happens after one attempt. */
  datatype Handling = Done | Record(error: Exception) | Raise(error: Exception)

  /** `KeyError(key)`. */
  function MissingKey(key: string): Exception {
    Exception(KeyError, key)
  }

  function Handle(policy: Policy, outcome: Ingest): (h: Handling)
    ensures h.Done? <==> outcome.Ingested?
    ensures policy.CatchConstruct? ==>
      (h.Record? <==> outcome.ConstructRaised?) && (h.Raise? <==> outcome.SaveRaised?) &&
      (!h.Done? ==> h.error == outcome.error)
    ensures policy.CatchAll? ==> !h.Raise? && (h.Record? ==> h.error == outcome.error)
    ensures policy.CatchAllFailingRecord? ==> !h.Record? && (h.Raise? ==> h.error == MissingKey(policy.logKey))
  {
    match outcome
    case Ingested => Done
    case ConstructRaised(e) =>
      if policy.CatchAllFailingRecord? then Raise(MissingKey(policy.logKey)) else Record(e)
    case SaveRaised(e) =>
      match policy
      case CatchConstruct => Raise(e)
      case CatchAll => Record(e)
      case CatchAllFailingRecord(key) => Raise(MissingKey(key))
  }

  /** One `for` loop of a command: the key its errors go under, the IDs, the skip rule, the request
      built from an ID, and the exception policy. */
  datatype Loop<R> = Loop(key: string, ids: seq<string>, skip: string -> bool, request: string -> R, policy: Policy)

  /** After a loop: the requests handed to the oracle, the error log, and the exception that ended
      the loop early, if any. */
  datatype PassResult<R> = PassResult(calls: seq<R>, log: Dict<Exception>, raised: Option<Exception>)

  /** One iteration, from the state after the earlier ones. */
  function Attempt<R>(acc: PassResult<R>, id: string, skip: string -> bool, request: string -> R,
                      policy: Policy, ingest: R -> Ingest): PassResult<R>
  {
    if acc.raised.Some? || skip(id) then acc
    else
      var calls := acc.calls + [request(id)];
      match Handle(policy, ingest(request(id)))
      case Done => PassResult(calls, acc.log, None)
      case Record(e) => PassResult(calls, Put(acc.log, id, e), None)
      case Raise(e) => PassResult(calls, acc.log, Some(e))
  }

  /** The loop over `ids`, starting from an empty error log. */
  function Pass<R>(ids: seq<string>, skip: string -> bool, request: string -> R,
                   policy: Policy, ingest: R -> Ingest): PassResult<R>
    decreases |ids|
  {
    if ids == [] then PassResult([], [], None)
    else Attempt(Pass(ids[..|ids| - 1], skip, request, policy, ingest), ids[|ids| - 1], skip, request, policy, ingest)
  }

  function PassOf<R>(l: Loop<R>, ingest: R -> Ingest): PassResult<R> {
    Pass(l.ids, l.skip, l.request, l.policy, ingest)
  }

  /** A non-empty loop is its prefix followed by one attempt on the last ID. */
  lemma PassLast<R>(ids: seq<string>, skip: string -> bool, request: string -> R,
                    policy: Policy, ingest: R -> Ingest)
    requires ids != []
    ensures Pass(ids, skip, request, policy, ingest) ==
      Attempt(Pass(ids[..|ids| - 1], skip, request, policy, ingest), ids[|ids| - 1], skip, request, policy, ingest)
  {
  }

  /** The requests of the IDs the skip rule lets through, in order. */
  function Requests<R>(ids: seq<string>, skip: string -> bool, request: string -> R): (qs: seq<R>)
    ensures |qs| <= |ids|
    decreases |ids|
  {
    if ids == [] then []
    else
      Requests(ids[..|ids| - 1], skip, request) +
      (if skip(ids[|ids| - 1]) then [] else [request(ids[|ids| - 1])])
  }

  lemma PassStep<R>(ids: seq<string>, i: int, skip: string -> bool, request: string -> R,
                    policy: Policy, ingest: R -> Ingest)
    requires 0 <= i < |ids|
    ensures Pass(ids[..i + 1], skip, request, policy, ingest) ==
      Attempt(Pass(ids[..i], skip, request, policy, ingest), ids[i], skip, request, policy, ingest)
  {
    var s := ids[..i + 1];
    assert s[..|s| - 1] == ids[..i] && s[|s| - 1] == ids[i];
  }

  /** Once an iteration has raised, the rest of the loop never runs. */
  lemma {:induction false} PassSticks<R>(ids: seq<string>, n: int, skip: string -> bool, request: string -> R,
                                         policy: Policy, ingest: R -> Ingest)
    requires 0 <= n <= |ids|
    requires Pass(ids[..n], skip, request, policy, ingest).raised.Some?
    ensures Pass(ids, skip, request, policy, ingest) == Pass(ids[..n], skip, request, policy, ingest)
    decreases |ids|
  {
    if n < |ids| {
      var front := ids[..|ids| - 1];
      assert front[..n] == ids[..n];
      PassSticks(front, n, skip, request, policy, ingest);
    } else {
      assert ids[..n] == ids;
    }
  }

  /** The loop as the source writes it: `continue` on a skipped ID, one attempt otherwise, and an
      early exit when the attempt's exception escapes. */
  method RunPass<R>(ids: seq<string>, skip: string -> bool, request: string -> R,
                    policy: Policy, ingest: R -> Ingest) returns (r: PassResult<R>)
    ensures r == Pass(ids, skip, request, policy, ingest)
  {
    var calls: seq<R> := [];
    var log: Dict<Exception> := [];
    for i := 0 to |ids|
      invariant Pass(ids[..i], skip, request, policy, ingest) == PassResult(calls, log, None)
    {
      PassStep(ids, i, skip, request, policy, ingest);
      var id := ids[i];
      if skip(id) {
        continue;
      }
      var q := request(id);
      calls := calls + [q];
      var h := Handle(policy, ingest(q));
      if h.Raise? {
        PassSticks(ids, i + 1, skip, request, policy, ingest);
        return PassResult(calls, log, Some(h.error));
      }
      if h.Record? {
        log := Put(log, id, h.error);
      }
    }
    assert ids[..|ids|] == ids;
    return PassResult(calls, log, None);
  }

  /** An ID gets a request exactly when the skip rule lets it through. */
  lemma {:induction false} RequestsMembers<R>(ids: seq<string>, skip: string -> bool, request: string -> R, q: R)
    ensures q in Requests(ids, skip, request) <==>
      exists i :: 0 <= i < |ids| && !skip(ids[i]) && request(ids[i]) == q
    decreases |ids|
  {
    if ids != [] {
      var n := |ids| - 1;
      var front := ids[..n];
      RequestsMembers(front, skip, request, q);
      assert Requests(ids, skip, request) ==
        Requests(front, skip, request) + (if skip(ids[n]) then [] else [request(ids[n])]);
      if exists i :: 0 <= i < |ids| && !skip(ids[i]) && request(ids[i]) == q {
        var i :| 0 <= i < |ids| && !skip(ids[i]) && request(ids[i]) == q;
        if i < n {
          assert front[i] == ids[i];
        }
      }
      if exists i :: 0 <= i < n && !skip(front[i]) && request(front[i]) == q {
        var i :| 0 <= i < n && !skip(front[i]) && request(front[i]) == q;
        assert ids[i] == front[i];
      }
    }
  }

  /** Whether the attempt on an ID raises out of the loop. */
  predicate Escapes<R>(id: string, skip: string -> bool, request: string -> R, policy: Policy, ingest: R -> Ingest) {
    !skip(id) && Handle(policy, ingest(request(id))).Raise?
  }

  /** A loop that finishes has requested every ID the skip rule lets through, in order; one that
      raised has requested a prefix of those. */
  lemma {:induction false} PassRequests<R>(ids: seq<string>, skip: string -> bool, request: string -> R,
                                           policy: Policy, ingest: R -> Ingest)
    ensures var r := Pass(ids, skip, request, policy, ingest);
      && r.calls <= Requests(ids, skip, request)
      && (r.raised.None? ==> r.calls == Requests(ids, skip, request))
    decreases |ids|
  {
    if ids != [] {
      var n := |ids| - 1;
      PassRequests(ids[..n], skip, request, policy, ingest);
      PassLast(ids, skip, request, policy, ingest);
    }
  }

  /** A loop raises exactly when some attempt's exception escapes. */
  lemma {:induction false} PassRaises<R>(ids: seq<string>, skip: string -> bool, request: string -> R,
                                         policy: Policy, ingest: R -> Ingest)
    ensures Pass(ids, skip, request, policy, ingest).raised.Some? <==>
      exists i :: 0 <= i < |ids| && Escapes(ids[i], skip, request, policy, ingest)
    decreases |ids|
  {
    if ids != [] {
      var n := |ids| - 1;
      var front := ids[..n];
      PassRaises(front, skip, request, policy, ingest);
      PassLast(ids, skip, request, policy, ingest);
      if exists i :: 0 <= i < |ids| && Escapes(ids[i], skip, request, policy, ingest) {
        var i :| 0 <= i < |ids| && Escapes(ids[i], skip, request, policy, ingest);
        if i < n {
          assert Escapes(front[i], skip, request, policy, ingest);
        }
      }
      if exists i :: 0 <= i < n && Escapes(front[i], skip, request, policy, ingest) {
        var i :| 0 <= i < n && Escapes(front[i], skip, request, policy, ingest);
        assert ids[i] == front[i];
      }
    }
  }

  /** Both of the above: the requests made, and when the loop raises. */
  lemma PassCalls<R>(ids: seq<string>, skip: string -> bool, request: string -> R,
                     policy: Policy, ingest: R -> Ingest)
    ensures var r := Pass(ids, skip, request, policy, ingest);
      && r.calls <= Requests(ids, skip, request)
      && (r.raised.None? ==> r.calls == Requests(ids, skip, request))
      && (r.raised.Some? <==> exists i :: 0 <= i < |ids| && Escapes(ids[i], skip, request, policy, ingest))
  {
    PassRequests(ids, skip, request, policy, ingest);
    PassRaises(ids, skip, request, policy, ingest);
  }

  /** The raised exception is the escaping one of the first ID whose attempt escapes. */
  lemma {:induction false} PassRaisesFirst<R>(ids: seq<string>, skip: string -> bool, request: string -> R,
                                              policy: Policy, ingest: R -> Ingest)
    ensures var r := Pass(ids, skip, request, policy, ingest);
      r.raised.Some? ==>
        exists i :: 0 <= i < |ids| && Escapes(ids[i], skip, request, policy, ingest) &&
          r.raised.value == Handle(policy, ingest(request(ids[i]))).error &&
          forall j :: 0 <= j < i ==> !Escapes(ids[j], skip, request, policy, ingest)
    decreases |ids|
  {
    if ids != [] {
      var n := |ids| - 1;
      var front := ids[..n];
      PassRaisesFirst(front, skip, request, policy, ingest);
      PassLast(ids, skip, request, policy, ingest);
      var acc := Pass(front, skip, request, policy, ingest);
      if acc.raised.Some? {
        var i :| 0 <= i < n && Escapes(front[i], skip, request, policy, ingest) &&
          acc.raised.value == Handle(policy, ingest(request(front[i]))).error &&
          forall j :: 0 <= j < i ==> !Escapes(front[j], skip, request, policy, ingest);
        assert ids[i] == front[i];
        assert forall j :: 0 <= j < i ==> ids[j] == front[j];
      } else if Pass(ids, skip, request, policy, ingest).raised.Some? {
        PassCalls(front, skip, request, policy, ingest);
        assert forall j :: 0 <= j < n ==> ids[j] == front[j];
      }
    }
  }

  /** Who gets logged when an attempt is recorded. */
  predicate Recorded<R>(id: string, skip: string -> bool, request: string -> R, policy: Policy, ingest: R -> Ingest) {
    !skip(id) && Handle(policy, ingest(request(id))).Record?
  }

  /** The error log of a loop that finishes holds each ID at most once: exactly the IDs whose attempt
      was recorded, each with that attempt's exception. */
  lemma {:induction false} PassLog<R>(ids: seq<string>, skip: string -> bool, request: string -> R,
                                      policy: Policy, ingest: R -> Ingest)
    ensures var r := Pass(ids, skip, request, policy, ingest);
      r.raised.None? ==>
        && DistinctKeys(r.log)
        && (forall x :: x in Keys(r.log) <==> x in ids && Recorded(x, skip, request, policy, ingest))
        && (forall x :: x in Keys(r.log) ==>
              Get(r.log, x) == Some(Handle(policy, ingest(request(x))).error))
    decreases |ids|
  {
    if ids != [] {
      var n := |ids| - 1;
      var front := ids[..n];
      var id := ids[n];
      var acc := Pass(front, skip, request, policy, ingest);
      var r := Pass(ids, skip, request, policy, ingest);
      PassLast(ids, skip, request, policy, ingest);
      if r.raised.None? {
        PassLog(front, skip, request, policy, ingest);
        if Recorded(id, skip, request, policy, ingest) {
          var e := Handle(policy, ingest(request(id))).error;
          assert r.log == Put(acc.log, id, e);
          PutKeys(acc.log, id, e);
          PutDistinct(acc.log, id, e);
          forall x ensures Get(r.log, x) == if x == id then Some(e) else Get(acc.log, x) {
            PutGet(acc.log, id, e, x);
          }
        }
      }
    }
  }

  /** A loop that guards everything never raises. */
  lemma PassCatchAllCompletes<R>(ids: seq<string>, skip: string -> bool, request: string -> R, ingest: R -> Ingest)
    ensures Pass(ids, skip, request, CatchAll, ingest).raised.None?
  {
    PassCalls(ids, skip, request, CatchAll, ingest);
  }

  /** A loop whose handler itself fails never logs anything, and raises only `KeyError(logKey)`. */
  lemma {:induction false} PassFailingRecord<R>(ids: seq<string>, skip: string -> bool, request: string -> R,
                                                key: string, ingest: R -> Ingest)
    ensures var r := Pass(ids, skip, request, CatchAllFailingRecord(key), ingest);
      r.log == [] && (r.raised.Some? ==> r.raised.value == MissingKey(key))
    decreases |ids|
  {
    if ids != [] {
      PassFailingRecord(ids[..|ids| - 1], skip, request, key, ingest);
    }
  }

  /** After a sequence of loops: all requests, the error log (one sub-log per loop key; a later loop
      with the same key replaces the earlier sub-log) and the exception that aborted the command. When
      `raised` is set the command ends there and the log is never written. */
  datatype Run<R> = Run(calls: seq<R>, log: Dict<Dict<Exception>>, raised: Option<Exception>)

  /** The loops one after the other, `error_log[key] = {}` before each; an exception escaping one
      loop ends the command. */
  function Passes<R>(loops: seq<Loop<R>>, ingest: R -> Ingest): Run<R>
    decreases |loops|
  {
    if loops == [] then Run([], [], None)
    else
      var acc := Passes(loops[..|loops| - 1], ingest);
      if acc.raised.Some? then acc
      else
        var l := loops[|loops| - 1];
        var p := PassOf(l, ingest);
        Run(acc.calls + p.calls, Put(acc.log, l.key, p.log), p.raised)
  }

  /** A non-empty command is its earlier loops followed by the last one, unless they raised. */
  lemma PassesLast<R>(loops: seq<Loop<R>>, ingest: R -> Ingest)
    requires loops != []
    ensures var acc, l := Passes(loops[..|loops| - 1], ingest), loops[|loops| - 1];
      Passes(loops, ingest) ==
        if acc.raised.Some? then acc
        else Run(acc.calls + PassOf(l, ingest).calls, Put(acc.log, l.key, PassOf(l, ingest).log), PassOf(l, ingest).raised)
  {
  }

  lemma PassesStep<R>(loops: seq<Loop<R>>, i: int, ingest: R -> Ingest)
    requires 0 <= i < |loops|
    requires Passes(loops[..i], ingest).raised.None?
    ensures var acc, p := Passes(loops[..i], ingest), PassOf(loops[i], ingest);
      Passes(loops[..i + 1], ingest) == Run(acc.calls + p.calls, Put(acc.log, loops[i].key, p.log), p.raised)
  {
    var s := loops[..i + 1];
    assert s[..|s| - 1] == loops[..i] && s[|s| - 1] == loops[i];
  }

  lemma {:induction false} PassesSticks<R>(loops: seq<Loop<R>>, n: int, ingest: R -> Ingest)
    requires 0 <= n <= |loops|
    requires Passes(loops[..n], ingest).raised.Some?
    ensures Passes(loops, ingest) == Passes(loops[..n], ingest)
    decreases |loops|
  {
    if n < |loops| {
      var front := loops[..|loops| - 1];
      assert front[..n] == loops[..n];
      PassesSticks(front, n, ingest);
    } else {
      assert loops[..n] == loops;
    }
  }

  /** The loops of a command, run in order. */
  method RunPasses<R>(loops: seq<Loop<R>>, ingest: R -> Ingest) returns (r: Run<R>)
    ensures r == Passes(loops, ingest)
  {
    var calls: seq<R> := [];
    var log: Dict<Dict<Exception>> := [];
    for i := 0 to |loops|
      invariant Passes(loops[..i], ingest) == Run(calls, log, None)
    {
      PassesStep(loops, i, ingest);
      var l := loops[i];
      var p := RunPass(l.ids, l.skip, l.request, l.policy, ingest);
      calls := calls + p.calls;
      log := Put(log, l.key, p.log);
      if p.raised.Some? {
        PassesSticks(loops, i + 1, ingest);
        return Run(calls, log, p.raised);
      }
    }
    assert loops[..|loops|] == loops;
    return Run(calls, log, None);
  }

  /** The requests of every loop, one loop after the other. */
  function AllCalls<R>(loops: seq<Loop<R>>, ingest: R -> Ingest): seq<R>
    decreases |loops|
  {
    if loops == [] then []
    else AllCalls(loops[..|loops| - 1], ingest) + PassOf(loops[|loops| - 1], ingest).calls
  }

  /** The command completes exactly when every loop does, and then it has made the requests of all
      its loops, in loop order. */
  lemma {:induction false} PassesCompletes<R>(loops: seq<Loop<R>>, ingest: R -> Ingest)
    ensures var r := Passes(loops, ingest);
      && (r.raised.None? <==> forall i :: 0 <= i < |loops| ==> PassOf(loops[i], ingest).raised.None?)
      && (r.raised.None? ==> r.calls == AllCalls(loops, ingest))
    decreases |loops|
  {
    if loops != [] {
      var n := |loops| - 1;
      var front := loops[..n];
      PassesCompletes(front, ingest);
      PassesLast(loops, ingest);
      assert forall i :: 0 <= i < n ==> front[i] == loops[i];
    }
  }

  /** A request is among those of all loops exactly when one of the loops made it. */
  lemma {:induction false} AllCallsMembers<R>(loops: seq<Loop<R>>, ingest: R -> Ingest, q: R)
    ensures q in AllCalls(loops, ingest) <==> exists i :: 0 <= i < |loops| && q in PassOf(loops[i], ingest).calls
    decreases |loops|
  {
    if loops != [] {
      var n := |loops| - 1;
      var front, last := loops[..n], PassOf(loops[n], ingest).calls;
      AllCallsMembers(front, ingest, q);
      assert AllCalls(loops, ingest) == AllCalls(front, ingest) + last;
      if q in AllCalls(loops, ingest) {
        if q in AllCalls(front, ingest) {
          var i :| 0 <= i < n && q in PassOf(front[i], ingest).calls;
          assert loops[i] == front[i];
        } else {
          assert q in PassOf(loops[n], ingest).calls;
        }
      } else {
        forall i | 0 <= i < |loops| ensures q !in PassOf(loops[i], ingest).calls {
          if i < n {
            assert loops[i] == front[i];
          }
        }
      }
    }
  }

  /** In a completed command the log has one entry per loop key, holding the log of the last loop
      with that key: a loop repeating an earlier key discards that loop's errors. */
  lemma {:induction false} PassesLog<R>(loops: seq<Loop<R>>, ingest: R -> Ingest, i: int)
    requires 0 <= i < |loops|
    requires forall j :: i < j < |loops| ==> loops[j].key != loops[i].key
    ensures var r := Passes(loops, ingest);
      r.raised.None? ==> Get(r.log, loops[i].key) == Some(PassOf(loops[i], ingest).log)
    decreases |loops|
  {
    var n := |loops| - 1;
    var front := loops[..n];
    var r := Passes(loops, ingest);
    if r.raised.None? {
      var acc := Passes(front, ingest);
      PassesLast(loops, ingest);
      PutGet(acc.log, loops[n].key, PassOf(loops[n], ingest).log, loops[i].key);
      if i < n {
        assert front[i] == loops[i];
        assert forall j :: i < j < n ==> front[j] == loops[j];
        PassesLog(front, ingest, i);
      }
    }
  }

  /** The keys of the loops, as a set. */
  function LoopKeys<R>(loops: seq<Loop<R>>): set<string>
    decreases |loops|
  {
    if loops == [] then {} else LoopKeys(loops[..|loops| - 1]) + {loops[|loops| - 1].key}
  }

  /** A key is among the loops' keys exactly when some loop has it. */
  lemma {:induction false} LoopKeysMembers<R>(loops: seq<Loop<R>>, k: string)
    ensures k in LoopKeys(loops) <==> exists i :: 0 <= i < |loops| && loops[i].key == k
    decreases |loops|
  {
    if loops != [] {
      var n := |loops| - 1;
      var front := loops[..n];
      LoopKeysMembers(front, k);
      if exists i :: 0 <= i < |loops| && loops[i].key == k {
        var i :| 0 <= i < |loops| && loops[i].key == k;
        if i < n {
          assert front[i] == loops[i];
        }
      }
      if exists i :: 0 <= i < n && front[i].key == k {
        var i :| 0 <= i < n && front[i].key == k;
        assert loops[i] == front[i];
      }
    }
  }

  /** The keys of a completed command's log are the keys of its loops. */
  lemma {:induction false} PassesKeys<R>(loops: seq<Loop<R>>, ingest: R -> Ingest)
    ensures var r := Passes(loops, ingest);
      r.raised.None? ==> Keys(r.log) == LoopKeys(loops)
    decreases |loops|
  {
    if loops != [] {
      var n := |loops| - 1;
      var front := loops[..n];
      if Passes(loops, ingest).raised.None? {
        PassesLast(loops, ingest);
        PassesKeys(front, ingest);
        PutKeys(Passes(front, ingest).log, loops[n].key, PassOf(loops[n], ingest).log);
      }
    }
  }

  /** A key is in a completed command's log exactly when some loop has it. */
  lemma PassesLogKeys<R>(loops: seq<Loop<R>>, ingest: R -> Ingest, k: string)
    ensures var r := Passes(loops, ingest);
      r.raised.None? ==> (k in Keys(r.log) <==> exists i :: 0 <= i < |loops| && loops[i].key == k)
  {
    PassesKeys(loops, ingest);
    LoopKeysMembers(loops, k);
  }

  /** An aborted command raised the exception of one of its loops. */
  lemma {:induction false} PassesRaisedFrom<R>(loops: seq<Loop<R>>, ingest: R -> Ingest)
    ensures var r := Passes(loops, ingest);
      r.raised.Some? ==> exists i :: 0 <= i < |loops| && PassOf(loops[i], ingest).raised == r.raised
    decreases |loops|
  {
    if loops != [] {
      var n := |loops| - 1;
      var front := loops[..n];
      PassesLast(loops, ingest);
      PassesRaisedFrom(front, ingest);
      if Passes(front, ingest).raised.Some? {
        var i :| 0 <= i < n && PassOf(front[i], ingest).raised == Passes(front, ingest).raised;
        assert loops[i] == front[i];
      }
    }
  }
}
