/** The isolated stream worker of internal/machineio/process_unix.go: a parent that moves bytes through a
    child process, one request and one response at a time. The child may be killed at any point, and a
    concurrent Close may kill it at any point; the operation lock keeps one Read or Write at a time. */
module MachineIO {
  import opened Common

  const CHUNK: nat := 65536

  datatype Mode = ReadOnly | WriteOnly

  datatype Status = Fine | AtEnd | Broken

  /** A response, and for a read its data. */
  datatype Response = Response(n: nat, status: Status, data: string)

  datatype IOError = Closed | Unavailable | ShortWrite | EndOfFile

  /** The inherited descriptor. `accepted` is what the destination has taken; `source` is everything that
      will ever arrive before the end of the stream and `taken` how much of it has been read. */
  class Target {
    const isSocket: bool
    const source: string
    var accepted: string
    var taken: nat

    constructor (isSocket: bool, source: string)
      ensures this.isSocket == isSocket && this.source == source && accepted == "" && taken == 0
    {
      this.isSocket, this.source, accepted, taken := isSocket, source, "", 0;
    }

    /** One write call, or one sendmsg: any part of the bytes; a short count always comes with an error
        from a write, and never with EINTR's retry. */
    method Accept(bytes: string) returns (n: nat, fails: bool)
      modifies `accepted
      ensures n <= |bytes| && accepted == old(accepted) + bytes[..n]
    {
      n, fails := *, *;
      if n > |bytes| {
        n := |bytes|;
      }
      accepted := accepted + bytes[..n];
    }

    /** One read call: some bytes that come next, the end of the stream, or an error. */
    method Take(size: nat) returns (data: string, status: Status)
      requires size > 0 && taken <= |source|
      modifies `taken
      ensures |data| <= size && taken == old(taken) + |data| <= |source| && data == source[old(taken)..taken]
      ensures (status.Fine? ==> data != "") && (status.AtEnd? ==> old(taken) == |source|)
    {
      var n: nat, breaks: bool := *, *;
      if breaks {
        return "", Broken;
      }
      if taken == |source| {
        return "", AtEnd;
      }
      n := if n == 0 then 1 else n;
      n := if n > size then size else n;
      n := if taken + n > |source| then |source| - taken else n;
      data, status := source[taken..taken + n], Fine;
      taken := taken + n;
    }
  }

  /** The child: RunHelper, one round of its loop per call. */
  class Helper {
    const target: Target
    var alive: bool

    /** History: how often something outside the program has failed it: the child was killed, a system call failed,
        a pipe broke, or somebody else closed the stream. */
    ghost var faults: nat

    constructor (target: Target)
      ensures this.target == target && alive && faults == 0
    {
      this.target, alive, faults := target, true, 0;
    }

    ghost method Fault()
      modifies `faults
      ensures faults == old(faults) + 1
    {
      faults := faults + 1;
    }

    method MayBeKilled()
      modifies `alive, `faults
      ensures alive ==> old(alive)
      ensures faults >= old(faults) && (alive == old(alive) <==> faults == old(faults))
    {
      var killed: bool := *;
      if killed && alive {
        alive := false;
        Fault();
      }
    }

    /** A write round. `k` bytes of the payload reach the destination; a response reports exactly them. All of them
        do, and the response says so, exactly when nothing fails. */
    method ServeWrite(payload: string) returns (r: Option<Response>, ghost k: nat)
      requires 0 < |payload| <= CHUNK
      modifies this, target`accepted
      ensures k <= |payload| && target.accepted == old(target.accepted) + payload[..k]
      ensures alive ==> old(alive)
      ensures !old(alive) ==> k == 0 && r.None?
      ensures r.Some? ==> r.value.n == k && !r.value.status.AtEnd?
      ensures r == Some(Response(|payload|, Fine, "")) <==> old(alive) && faults == old(faults)
      ensures r.Some? ==> r.value.data == ""
      ensures faults >= old(faults) && (old(alive) ==> (alive <==> faults == old(faults)))
    {
      k := 0;
      MayBeKilled();
      if !alive {
        return None, k;
      }
      var n: nat := 0;
      var failed := false;
      if target.isSocket {
        var interrupts: nat := *; // a send is interrupted only finitely often
        while n < |payload|
          invariant n <= |payload| && target.accepted == old(target.accepted) + payload[..n]
          invariant (alive ==> old(alive)) && alive && !failed && faults == old(faults)
          decreases |payload| - n, interrupts
        {
          var interrupted: bool := *;
          if interrupted && interrupts > 0 {
            interrupts := interrupts - 1;
            continue;
          }
          var count, fails := target.Accept(payload[n..]);
          assert payload[..n] + payload[n..][..count] == payload[..n + count];
          n := n + count;
          MayBeKilled();
          if !alive {
            return None, n;
          }
          if fails || count == 0 {
            Fault();
            failed := true;
            break;
          }
        }
      } else {
        var count, fails := target.Accept(payload);
        n, failed := count, fails || count < |payload|;
        if failed {
          Fault();
        }
      }
      k := n;
      MayBeKilled();
      if !alive {
        return None, k;
      }
      alive := !failed;
      r := Some(Response(n, if failed then Broken else Fine, ""));
    }

    /** A read round. Whatever is taken from the source is in the response, or lost with the child. When nothing fails
        there is a response: bytes as long as there are any, and then the end. */
    method ServeRead(size: nat) returns (r: Option<Response>)
      requires 0 < size <= CHUNK && target.taken <= |target.source|
      modifies this, target`taken
      ensures old(target.taken) <= target.taken <= |target.source| && target.taken <= old(target.taken) + size
      ensures alive ==> old(alive)
      ensures !old(alive) ==> r.None? && target.taken == old(target.taken)
      ensures r.None? ==> !alive
      ensures r.Some? ==> r.value.data == target.source[old(target.taken)..target.taken] && r.value.n == |r.value.data|
      ensures r.Some? && r.value.status.Fine? ==> r.value.n > 0
      ensures r.Some? && r.value.status.AtEnd? ==> old(target.taken) == |target.source|
      ensures r.Some? && !r.value.status.Broken? <==> old(alive) && faults == old(faults)
      ensures faults >= old(faults) && (alive <==> r.Some? && r.value.status.Fine?)
    {
      MayBeKilled();
      if !alive {
        return None;
      }
      var data, status := target.Take(size);
      MayBeKilled();
      if !alive {
        return None;
      }
      alive := status.Fine?;
      if status.Broken? {
        Fault();
      }
      r := Some(Response(|data|, status, data));
    }
  }

  /** The destination has a prefix of what was given, and at most one chunk more than was reported. */
  predicate Balanced(closed: bool, accepted: string, given: string, reported: nat) {
    && accepted <= given
    && reported <= |accepted| <= reported + CHUNK
    && (!closed ==> accepted == given && reported == |given|)
  }

  lemma StaysBalanced(before: bool, accepted: string, given: string, reported: nat, p: string, k: nat,
                      written: nat, after: bool)
    requires Balanced(before, accepted, given, reported) && written <= k <= |p|
    requires k <= written + CHUNK && (before ==> after && k == 0) && (!after ==> written == |p|)
    ensures Balanced(after, accepted + p[..k], given + p, reported + written)
  {
    if !before {
      assert (given + p)[..|given| + k] == given + p[..k];
    }
  }

  class ProcessStream {
    const mode: Mode
    const helper: Helper
    var eof: bool
    var closed: bool

    /** History: everything given to Write, the sum of the counts Write has returned, and everything Read
        has returned. */
    ghost var given: string
    ghost var reported: nat
    ghost var delivered: string

    /** What holds between any two calls, whatever has been killed or closed so far. */
    ghost predicate Valid()
      reads this, helper, helper.target
    {
      var target := helper.target;
      && (closed ==> !helper.alive)
      // The child serves until the stream is closed or at its end.
      && (!closed && !eof ==> helper.alive) && (eof ==> mode.ReadOnly?)
      && Balanced(closed, target.accepted, given, reported)
      // Reads return a prefix of the source, and at most one chunk is lost with the child.
      && |delivered| <= target.taken <= |target.source|
      && delivered == target.source[..|delivered|]
      && target.taken <= |delivered| + CHUNK
      && (!closed ==> target.taken == |delivered|)
      && (eof ==> delivered == target.source)
    }

    constructor (mode: Mode, helper: Helper)
      requires helper.alive && helper.target.accepted == "" && helper.target.taken == 0
      ensures Valid() && this.mode == mode && this.helper == helper && !closed && !eof
      ensures given == "" && reported == 0 && delivered == ""
    {
      this.mode, this.helper := mode, helper;
      eof, closed, given, reported, delivered := false, false, "", 0, "";
    }

    /** retire: close the pipes, kill the child and wait for it. */
    method Retire()
      modifies `closed, helper`alive
      ensures closed && !helper.alive
    {
      closed := true;
      helper.alive := false;
    }

    /** canceled: a Close may have been called from elsewhere in the meantime. */
    method Canceled() returns (b: bool)
      modifies `closed, helper`alive, helper`faults
      ensures b == closed && (old(closed) ==> closed)
      ensures closed && !old(closed) ==> !helper.alive
      ensures closed == old(closed) ==> helper.alive == old(helper.alive)
      ensures helper.faults == old(helper.faults) + if closed == old(closed) then 0 else 1
    {
      var elsewhere: bool := *;
      if elsewhere && !closed {
        helper.Fault();
        Retire();
      }
      b := closed;
    }

    /** One turn of Write's loop after its size has been chosen. */
    method WriteChunk(chunk: string) returns (n: nat, err: Option<IOError>, ghost k: nat)
      requires 0 < |chunk| <= CHUNK && (closed <==> !helper.alive)
      modifies `closed, helper, helper.target`accepted
      ensures k <= |chunk| && helper.target.accepted == old(helper.target.accepted) + chunk[..k]
      ensures n == k || n == 0
      ensures err.None? ==> n == |chunk| && closed == old(closed)
      ensures err.Some? ==> closed && !helper.alive
      ensures closed <==> !helper.alive
      ensures old(!helper.alive) ==> k == 0
      ensures err.None? <==> old(helper.alive) && helper.faults == old(helper.faults)
      ensures helper.faults >= old(helper.faults)
    {
      n, k := 0, 0;
      var pipeFails: bool := *;
      if pipeFails {
        helper.Fault();
        Retire();
        return n, Some(Unavailable), k;
      }
      var r, served := helper.ServeWrite(chunk);
      k := served;
      if r.None? || r.value.n > |chunk| || r.value.status.AtEnd? || (r.value.status.Fine? && r.value.n == 0) {
        Retire();
        return n, Some(Unavailable), k;
      }
      n := r.value.n;
      if !r.value.status.Fine? {
        Retire();
        return n, Some(Unavailable), k;
      }
      if n != |chunk| {
        Retire();
        return n, Some(ShortWrite), k;
      }
      err := None;
    }

    /** Write's loop. */
    method WriteAll(p: string) returns (written: nat, err: Option<IOError>, ghost k: nat)
      requires closed <==> !helper.alive
      modifies `closed, helper, helper.target`accepted
      ensures k <= |p| && helper.target.accepted == old(helper.target.accepted) + p[..k]
      ensures written <= k <= written + CHUNK
      ensures err.None? ==> written == |p|
      ensures if err.Some? then closed else closed == old(closed)
      ensures closed <==> !helper.alive
      ensures old(closed) ==> closed && k == 0 && (err.Some? ==> err == Some(Closed))
      ensures err.None? <==> (!old(closed) || p == "") && helper.faults == old(helper.faults)
      ensures helper.faults >= old(helper.faults)
    {
      written, k := 0, 0;
      ghost var before := helper.target.accepted;
      while written < |p|
        invariant written == k <= |p| && helper.target.accepted == before + p[..k]
        invariant (closed <==> !helper.alive) && closed == old(closed) && (closed ==> k == 0)
        invariant helper.faults == old(helper.faults)
      {
        var canceled := Canceled();
        if canceled {
          return written, Some(Closed), k;
        }
        var size := if |p| - written < CHUNK then |p| - written else CHUNK;
        var n, failed, accepted := WriteChunk(p[written..written + size]);
        assert before + p[..k] + p[k..k + size][..accepted] == before + p[..k + accepted];
        written, k := written + n, k + accepted;
        if failed.Some? {
          return written, failed, k;
        }
      }
      err := None;
    }

    /** Write: `k` of the bytes reach the destination, the first ones, and the count is at most one chunk
        behind; without an error all of them do, and there is none exactly when the stream is open for writing and
        nothing fails. */
    method Write(p: string) returns (written: nat, err: Option<IOError>, ghost k: nat)
      requires Valid()
      modifies this, helper, helper.target`accepted
      ensures Valid() && reported == old(reported) + written
      ensures given == old(given) + if mode.WriteOnly? then p else ""
      ensures k <= |p| && helper.target.accepted == old(helper.target.accepted) + p[..k]
      ensures written <= k <= written + CHUNK
      ensures err.None? ==> written == |p| && mode.WriteOnly? && !closed
      ensures k > written ==> closed
      ensures old(closed) ==> k == 0
      ensures err.None? <==> mode.WriteOnly? && !old(closed) && helper.faults == old(helper.faults)
      ensures mode.WriteOnly? && old(closed) ==> err == Some(Closed)
      ensures eof == old(eof) && delivered == old(delivered)
    {
      if !mode.WriteOnly? {
        return 0, Some(Unavailable), 0;
      }
      written, err, k := WriteAll(p);
      if err.None? {
        var canceled := Canceled();
        err := if canceled then Some(Closed) else None;
      }
      StaysBalanced(old(closed), old(helper.target.accepted), given, reported, p, k, written, closed);
      given, reported := given + p, reported + written;
    }

    /** Read: the bytes that come next in the source. The end is reported only when all of it has been
        returned. When nothing fails, an open stream yields bytes as long as there are any, and then the end. */
    method Read(size: nat) returns (data: string, err: Option<IOError>)
      requires Valid()
      modifies this, helper, helper.target`taken
      ensures helper.faults >= old(helper.faults)
      ensures Valid() && delivered == old(delivered) + data && |data| <= size
      ensures err == Some(EndOfFile) ==> delivered == helper.target.source
      ensures err.None? && size > 0 ==> data != ""
      ensures mode.WriteOnly? || old(closed) ==> data == ""
      ensures old(closed) ==> err == Some(Closed)
      ensures mode.ReadOnly? && !old(closed) && helper.faults == old(helper.faults) ==>
        var ended := old(eof) || (size > 0 && old(delivered) == helper.target.source);
        err == (if ended then Some(EndOfFile) else None) && (data == "" <==> ended || size == 0)
      ensures given == old(given) && reported == old(reported)
    {
      data := "";
      var canceled := Canceled();
      if canceled {
        return data, Some(Closed);
      }
      if !mode.ReadOnly? {
        return data, Some(Unavailable);
      }
      if eof {
        return data, Some(EndOfFile);
      }
      var chunk := if size < CHUNK then size else CHUNK;
      if chunk == 0 {
        return data, None;
      }
      var pipeFails: bool := *;
      if pipeFails {
        helper.Fault();
        Retire();
        return data, Some(Unavailable);
      }
      var r := helper.ServeRead(chunk);
      if r.None? || r.value.n > chunk || (r.value.status.Fine? && r.value.n == 0) {
        Retire();
        return data, Some(Unavailable);
      }
      data := r.value.data;
      delivered := delivered + data;
      match r.value.status
      case AtEnd =>
        eof := true;
        err := Some(EndOfFile);
      case Broken =>
        Retire();
        err := Some(Unavailable);
      case Fine =>
        err := None;
    }

    method Close()
      requires Valid()
      modifies `closed, helper`alive
      ensures Valid() && closed
    {
      Retire();
    }
  }
}
