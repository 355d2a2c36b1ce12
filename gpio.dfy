/** The input bank of gpio.c as the object it is: the table's `state` fields and the
    static pollfd array are arrays updated in place, the shutdown globals are fields.
    Every operation is proved against the value-level model in GpioModel. */
module Gpio {
  import opened GpioModel

  class InputBank {
    /** The key of each table entry (the table is never modified). */
    const keys: seq<int>

    /** `map[i].state`: last raw level seen on channel i. */
    var state: array<int>
    /** The POLLPRI bit of `pfd[i].revents`. */
    var ready: array<bool>
    /** `pfd[i]` holds the channel's fd and asks for POLLPRI. */
    var armed: array<bool>
    /** `shutdown_key1_ix`, `shutdown_key2_ix`, `shutdown_fun`. */
    var ix1: int
    var ix2: int
    var shutdownFun: Option<ShutFun>

    ghost function Value(): Bank
      reads this, state, ready, armed
    {
      Bank(state[..], ready[..], armed[..], Trigger())
    }

    ghost function Trigger(): Shutdown
      reads this
    {
      Shutdown(ix1, ix2, shutdownFun)
    }

    ghost predicate Valid()
      reads this, state, ready, armed
    {
      state.Length == |keys| && ready.Length == |keys| && armed.Length == |keys| &&
      ready != armed && Inv(|keys|, Value())
    }

    /** The static table before `gpio_init`: levels 0, the pollfd array zero-filled,
        no shutdown callback. */
    constructor ()
      ensures Valid() && fresh(state) && fresh(ready) && fresh(armed)
      ensures keys == KeysOf(Table)
      ensures Value() == Initial(|Table|)
    {
      keys := KeysOf(Table);
      state := new int[|Table|](_ => 0);
      ready := new bool[|Table|](_ => false);
      armed := new bool[|Table|](_ => false);
      ix1, ix2, shutdownFun := -1, -1, None;
    }

    /** `gpio_init`'s seeding of each channel's level by a first read, in table
        order; `samples[i]` is what reading channel i yields. A failed read ends the
        process (`ok` false) with the channels before it seeded. */
    method Init(samples: seq<Sample>) returns (ok: bool)
      requires Valid() && |samples| == |keys|
      modifies state
      ensures Valid()
      ensures ok <==> forall i :: 0 <= i < |samples| ==> samples[i].Byte?
      ensures ok ==> forall i :: 0 <= i < |keys| ==> state[i] == Level(samples[i].c)
      ensures !ok ==> exists j :: 0 <= j < |samples| && samples[j].ReadError? &&
                                 (forall i :: 0 <= i < j ==> samples[i].Byte? && state[i] == Level(samples[i].c))
    {
      var i := 0;
      while i < state.Length
        invariant 0 <= i <= state.Length && Valid()
        invariant forall k :: 0 <= k < i ==> samples[k].Byte? && state[k] == Level(samples[k].c)
      {
        match samples[i]
        case ReadError => return false;
        case Byte(c) => state[i] := Level(c);
        i := i + 1;
      }
      return true;
    }

    /** `gpio_shutdown_set`, with the validity test on both indices (the source
        tests the first index twice). */
    method ShutdownSet(fun: Option<ShutFun>, key1: int, key2: int) returns (rc: int)
      requires Valid()
      modifies this`ix1, this`ix2, this`shutdownFun
      ensures Valid()
      ensures (rc, Trigger()) == Register(keys, old(Trigger()), fun, key1, key2)
    {
      var i := 0;
      while i < |keys|
        invariant 0 <= i <= |keys|
        invariant ix1 == LastIndex(keys[..i], key1, old(ix1))
        invariant ix2 == LastIndex(keys[..i], key2, old(ix2))
        invariant shutdownFun == old(shutdownFun)
      {
        assert keys[..i + 1][..i] == keys[..i];
        if keys[i] == key1 {
          ix1 := i;
        }
        if keys[i] == key2 {
          ix2 := i;
        }
        i := i + 1;
      }
      assert keys[..|keys|] == keys;
      RegisterChecksBothKeys(keys, old(Trigger()), fun, key1, key2);
      if ix1 == -1 || ix2 == -1 {
        return -1;
      }
      shutdownFun := fun;
      return 0;
    }

    /** `gpio_map_keys`: hands each key to the callback in table order; `replies[k]`
        is what the k-th call returns. Stops right after the first negative reply. */
    method MapKeys(replies: seq<int>) returns (rc: int, called: seq<int>)
      requires |replies| == |keys|
      ensures |called| <= |keys| && called == keys[..|called|]
      ensures rc == 0 <==> forall k :: 0 <= k < |keys| ==> replies[k] >= 0
      ensures rc == 0 ==> |called| == |keys|
      ensures rc != 0 ==> (rc == -1 && 0 < |called| && replies[|called| - 1] < 0 &&
                           forall k :: 0 <= k < |called| - 1 ==> replies[k] >= 0)
    {
      called := [];
      var i := 0;
      while i < |keys|
        invariant 0 <= i <= |keys| && called == keys[..i]
        invariant forall k :: 0 <= k < i ==> replies[k] >= 0
      {
        called := called + [keys[i]];
        if replies[i] < 0 {
          return -1, called;
        }
        i := i + 1;
      }
      return 0, called;
    }

    /** `_shutdown_hook`'s condition on the current levels, read by `Event` when a
        pass stores a transition. */
    function ShutdownHook(): (fires: bool)
      reads this, state, ready, armed
      requires Valid()
      ensures fires == HookFires(Trigger(), state[..])
    {
      shutdownFun.Some? && state[ix1] == 0 && state[ix2] == 0
    }

    /** One pass of `gpio_event`'s inner loop: for each channel in order, a raised
        flag is cleared and the channel re-read; a changed level is stored and ends
        the pass; a channel passed over is re-armed. */
    method ScanPass(sample: seq<Sample>) returns (out: ScanOutcome)
      requires Valid() && |sample| == |keys|
      modifies state, ready, armed
      ensures Valid()
      ensures out == Scan(old(Value()), sample)
      ensures Value() == AfterScan(old(Value()), out)
    {
      ghost var b := Value();
      AfterScanKeepsInv(|keys|, b, sample);
      var i := 0;
      while i < state.Length
        invariant 0 <= i <= state.Length && ready != armed
        invariant Scan(b, sample) == ScanFrom(b, sample, i)
        invariant Value() == Settle(b, i)
      {
        ghost var v := Value();
        if ready[i] {
          ready[i] := false;
          assert ready[..] == v.ready[i := false];
          match sample[i]
          case ReadError =>
            out := ReadFailed(i);
            return;
          case Byte(c) =>
            var val := Level(c);
            if val != state[i] {
              state[i] := val;
              assert state[..] == v.state[i := val];
              out := Changed(i, val);
              return;
            }
        }
        armed[i] := true;
        ready[i] := false;
        assert ready[..] == v.ready[i := false] && armed[..] == v.armed[i := true];
        SettleStep(b, i);
        i := i + 1;
      }
      out := Quiet;
    }

    /** poll(2) on the fully armed pollfd array: exactly the channels in `fds`
        come back with POLLPRI. */
    method Poll(fds: set<int>)
      requires Valid() && forall k :: 0 <= k < armed.Length ==> armed[k]
      modifies ready
      ensures Valid()
      ensures Value() == PollStep(old(Value()), fds)
    {
      forall k | 0 <= k < ready.Length {
        ready[k] := k in fds;
      }
    }

    /** `gpio_event`: scan with the flags left from the previous call, then poll
        and scan again, until a pass finds a transition. `first` is what the reads
        of the first pass yield, `rounds[k]` the k-th poll and the reads after it. */
    method Event(first: seq<Sample>, rounds: seq<Round>) returns (res: EventResult)
      requires Valid() && Fits(|keys|, first, rounds)
      modifies state, ready, armed
      ensures Valid()
      ensures (res, Value()) == Run(keys, old(Value()), first, rounds)
    {
      var sample := first;
      var k := 0;
      while true
        invariant 0 <= k <= |rounds| && Valid() && Fits(|keys|, sample, rounds[k..])
        invariant Run(keys, old(Value()), first, rounds) == Run(keys, Value(), sample, rounds[k..])
        decreases |rounds| - k
      {
        var out := ScanPass(sample);
        match out
        case Changed(j, raw) =>
          res := Key(keys[j], Reported(raw), ShutdownHook());
          return;
        case ReadFailed(_) =>
          res := Exit(0);
          return;
        case Quiet =>
          if k == |rounds| {
            res := Blocked;
            return;
          }
          assert rounds[k..][0] == rounds[k] && rounds[k..][1..] == rounds[k + 1..];
          match rounds[k].wake
          case PollFailed =>
            res := Exit(1);
            return;
          case Woken(fds) =>
            Poll(fds);
            sample := rounds[k].sample;
            k := k + 1;
      }
    }
  }
}
