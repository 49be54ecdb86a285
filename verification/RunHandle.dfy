/** The notice channel of one run and its end (pkg/session/run_handle.go). The consumer receives without
    taking the handle's lock, so it may run between any two channel operations. */
module RunHandle {
  import opened Common

  const BUFFER: nat := 64

  type Notice = string

  /** `xs` is left of `ys` when some elements are dropped; the order stays. */
  predicate Subsequence(xs: seq<Notice>, ys: seq<Notice>)
    decreases |ys|
  {
    if xs == [] then true
    else if ys == [] then false
    else
      || (xs[|xs| - 1] == ys[|ys| - 1] && Subsequence(xs[..|xs| - 1], ys[..|ys| - 1]))
      || Subsequence(xs, ys[..|ys| - 1])
  }

  lemma SubsequenceSnoc(xs: seq<Notice>, ys: seq<Notice>, n: Notice)
    requires Subsequence(xs, ys)
    ensures Subsequence(xs + [n], ys + [n]) && Subsequence(xs, ys + [n])
  {
    assert (ys + [n])[..|ys|] == ys && (xs + [n])[..|xs|] == xs;
  }

  /** Dropping one more element. */
  lemma {:induction false} SubsequenceWithout(a: seq<Notice>, e: Notice, b: seq<Notice>, ys: seq<Notice>)
    requires Subsequence(a + [e] + b, ys)
    ensures Subsequence(a + b, ys)
    decreases |ys|
  {
    var xs := a + [e] + b;
    var init := ys[..|ys| - 1];
    if Subsequence(xs, init) {
      SubsequenceWithout(a, e, b, init);
      if a + b != [] {
        assert Subsequence(a + b, init);
      }
    } else if b == [] {
      assert xs[..|xs| - 1] == a && a + b == a;
      SubsequenceWeaken(a, init, ys[|ys| - 1]);
      assert init + [ys[|ys| - 1]] == ys;
    } else {
      assert xs[..|xs| - 1] == a + [e] + b[..|b| - 1];
      SubsequenceWithout(a, e, b[..|b| - 1], init);
      assert (a + b)[..|a + b| - 1] == a + b[..|b| - 1];
    }
  }

  lemma SubsequenceWeaken(xs: seq<Notice>, ys: seq<Notice>, n: Notice)
    requires Subsequence(xs, ys)
    ensures Subsequence(xs, ys + [n])
  {
    SubsequenceSnoc(xs, ys, n);
  }

  class RunHandle {
    /** The channel: what it buffers, and whether it is closed. */
    var buffer: seq<Notice>
    var noticeClosed: bool
    var dropped: nat
    var done: bool
    var finished: bool
    var termErr: Option<string>

    /** History: every notice routed here, what the consumer has received, what was evicted to make room,
        and what came after the end. */
    ghost var routed: seq<Notice>
    ghost var received: seq<Notice>
    ghost var evicted: nat
    ghost var late: nat

    ghost predicate Valid()
      reads this
    {
      && |buffer| <= BUFFER
      // The consumer sees an ordered part of what was routed, and only evictions are missing from it.
      && Subsequence(received + buffer, routed)
      && |received| + |buffer| + evicted + late == |routed|
      // Every loss is counted; a counted loss need not be one, when the consumer made room in time.
      && evicted + late <= dropped
      && (noticeClosed <==> finished) && (done <==> finished)
    }

    constructor ()
      ensures Valid() && !finished && buffer == [] && dropped == 0 && routed == [] && received == []
      ensures termErr.None?
    {
      buffer, noticeClosed, dropped, done, finished, termErr := [], false, 0, false, false, None;
      routed, received, evicted, late := [], [], 0, 0;
    }

    /** The consumer may receive any number of notices, the oldest first. */
    method ConsumerMayRun()
      modifies `buffer, `received
      ensures |buffer| <= |old(buffer)| && received + buffer == old(received + buffer)
      ensures |received| >= |old(received)|
      ensures |received| == |old(received)| ==> received == old(received) && buffer == old(buffer)
    {
      var k: int := *;
      k := if k < 0 then 0 else if k > |buffer| then |buffer| else k;
      assert received + buffer == (received + buffer[..k]) + buffer[k..];
      received, buffer := received + buffer[..k], buffer[k..];
      assert k == 0 ==> received == old(received) && buffer == old(buffer);
    }

    /** A send that does not block. On a closed channel it would panic. */
    method TrySend(n: Notice) returns (ok: bool)
      requires !noticeClosed
      modifies `buffer
      ensures ok == (|old(buffer)| < BUFFER)
      ensures buffer == if ok then old(buffer) + [n] else old(buffer)
    {
      ok := |buffer| < BUFFER;
      if ok {
        buffer := buffer + [n];
      }
    }

    /** Make room by dropping the oldest notice, and lose nothing else. */
    method Evict()
      modifies `buffer, `received, `evicted
      requires Subsequence(received + buffer, routed)
      ensures Subsequence(received + buffer, routed) && (|old(buffer)| <= BUFFER ==> |buffer| < BUFFER)
      ensures old(evicted) <= evicted <= old(evicted) + 1
      ensures |received| + |buffer| + evicted == old(|received| + |buffer| + evicted)
      ensures |received| >= |old(received)|
      ensures evicted == old(evicted) ==> received + buffer == old(received + buffer)
      ensures |received| == |old(received)| ==> buffer == if old(buffer) == [] then [] else old(buffer)[1..]
    {
      ConsumerMayRun();
      ghost var before := received + buffer;
      if buffer != [] {
        assert received + [buffer[0]] + buffer[1..] == before;
        SubsequenceWithout(received, buffer[0], buffer[1..], routed);
        buffer, evicted := buffer[1..], evicted + 1;
      }
      ConsumerMayRun();
    }

    /** The send with its drop-oldest fallback, on an open channel. */
    method Deliver(n: Notice)
      requires Subsequence(received + buffer, routed) && |buffer| <= BUFFER && !noticeClosed
      modifies `buffer, `received, `dropped, `routed, `evicted
      ensures Subsequence(received + buffer, routed) && |buffer| <= BUFFER && routed == old(routed) + [n]
      ensures |received| + |buffer| + evicted == old(|received| + |buffer| + evicted) + 1
      ensures 0 <= evicted - old(evicted) <= dropped - old(dropped) <= 1
      ensures buffer != [] && buffer[|buffer| - 1] == n
      ensures |old(buffer)| < BUFFER ==> dropped == old(dropped)
      ensures evicted == old(evicted) ==> received + buffer == old(received + buffer) + [n]
      ensures |received| == |old(received)| ==>
        buffer == (if |old(buffer)| < BUFFER then old(buffer) else old(buffer)[1..]) + [n]
    {
      hide Subsequence;
      ConsumerMayRun();
      ghost var rest := buffer;
      var sent := TrySend(n);
      if !sent {
        Evict();
        rest := buffer;
        sent := TrySend(n);
        assert sent; // Only senders, who hold the lock, fill the buffer: the last drop branch is dead.
        dropped := dropped + 1;
      }
      RecordRouted(rest, n);
    }

    /** routeNotice: the notice ends up last in the buffer, or comes after the end and is dropped. What was on its
        way stays so unless it is the oldest of a full buffer; nothing received in the meantime, that one goes. */
    method RouteNotice(n: Notice)
      requires Valid()
      modifies `buffer, `received, `dropped, `routed, `evicted, `late
      ensures Valid() && routed == old(routed) + [n]
      ensures noticeClosed ==> buffer == old(buffer) && received == old(received) && dropped == old(dropped) + 1
      ensures !noticeClosed ==> buffer != [] && buffer[|buffer| - 1] == n && late == old(late)
      ensures dropped <= old(dropped) + 1
      ensures |old(buffer)| < BUFFER && !noticeClosed ==> dropped == old(dropped) && evicted == old(evicted)
      ensures !noticeClosed && evicted == old(evicted) ==> received + buffer == old(received + buffer) + [n]
      ensures !noticeClosed && received == old(received) ==>
        buffer == (if |old(buffer)| < BUFFER then old(buffer) else old(buffer)[1..]) + [n]
    {
      hide Subsequence;
      if noticeClosed {
        SubsequenceWeaken(received + buffer, routed, n);
        dropped, late, routed := dropped + 1, late + 1, routed + [n];
      } else {
        Deliver(n);
      }
    }

    ghost method RecordRouted(rest: seq<Notice>, n: Notice)
      requires buffer == rest + [n] && Subsequence(received + rest, routed)
      modifies `routed
      ensures routed == old(routed) + [n] && Subsequence(received + buffer, routed)
    {
      assert received + buffer == received + rest + [n];
      SubsequenceSnoc(received + rest, routed, n);
      routed := routed + [n];
    }

    /** finish: the first call routes what is still queued and closes the channel; later ones change
        nothing. `queued` is what the session's flush hands over. */
    method Finish(err: Option<string>, queued: seq<Notice>)
      requires Valid()
      modifies this
      ensures Valid() && finished
      ensures old(finished) ==> unchanged(this)
      ensures !old(finished) ==> termErr == err && routed == old(routed) + queued && late == old(late)
    {
      hide Subsequence;
      if finished {
        return;
      }
      termErr := err;
      for i := 0 to |queued|
        invariant Valid() && !finished && termErr == err && late == old(late)
        invariant routed == old(routed) + queued[..i]
      {
        RouteNotice(queued[i]);
      }
      finished, noticeClosed, done := true, true, true;
    }
  }
}
