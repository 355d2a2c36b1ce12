/** Value-level model of the GPIO input bank (gpio.c).

    The bank is a fixed table of channels (pin, key). Each channel has a stored raw
    level `state`, a readiness flag `ready` (the POLLPRI bit of the channel's
    `revents` in the static pollfd array) and an `armed` flag (the pollfd entry holds
    the channel's fd and asks for POLLPRI). `gpio_event` scans the channels in table
    order, consumes readiness flags, re-reads the level and returns the first
    genuine transition; when a scan finds none it waits in poll(2) and scans again.

    Everything the operating system decides (which channels poll reports, what each
    read of a value file yields, whether a system call fails) enters as data. */
module GpioModel {

  datatype Option<T> = None | Some(value: T)

  // Key codes of linux/input.h used by the table.
  const KeyEsc: int := 1
  const KeyOne: int := 2
  const KeyTwo: int := 3
  const KeyFive: int := 6
  const KeyQ: int := 16
  const KeyR: int := 19
  const KeyEnter: int := 28
  const KeyA: int := 30
  const KeyS: int := 31
  const KeyD: int := 32
  const KeyF: int := 33
  const KeyG: int := 34
  const KeyLeftAlt: int := 56
  const KeySpace: int := 57
  const KeyUp: int := 103
  const KeyLeft: int := 105
  const KeyRight: int := 106
  const KeyDown: int := 108

  /** One configured line: the GPIO pin and the key it stands for. */
  datatype Channel = Channel(pin: int, key: int)

  /** The static mapping table, player 1 controls then player 2 controls. */
  const Table: seq<Channel> := [
    Channel(4, KeyDown), Channel(15, KeyUp), Channel(17, KeyRight), Channel(18, KeyLeft),
    Channel(27, KeyEnter), Channel(22, KeyLeftAlt), Channel(23, KeySpace),
    Channel(19, KeyOne), Channel(16, KeyTwo), Channel(26, KeyFive), Channel(20, KeyEsc),
    Channel(24, KeyF), Channel(10, KeyR), Channel(9, KeyG), Channel(25, KeyD),
    Channel(11, KeyA), Channel(8, KeyS), Channel(7, KeyQ)
  ]

  function KeysOf(table: seq<Channel>): (ks: seq<int>)
  {
    seq(|table|, i requires 0 <= i < |table| => table[i].key)
  }

  predicate Distinct(keys: seq<int>)
  {
    forall i, j :: 0 <= i < j < |keys| ==> keys[i] != keys[j]
  }

  // ---------------------------------------------------------------------------
  // Reading a line

  /** What one `_read_value` call yields: the first byte of the value file, or a
      failed lseek/read, after which the process exits with status 0. */
  datatype Sample = Byte(c: char) | ReadError

  /** Raw level of a value-file byte: '0' is level 0, any other byte level 1. */
  function Level(c: char): (l: int)
    ensures l == 0 || l == 1
  {
    if c == '0' then 0 else 1
  }

  /** The level handed to the caller: raw 0 (button held down) is reported as 1. */
  function Reported(raw: int): (v: int)
  {
    if raw == 0 then 1 else 0
  }

  /** The reported level inverts the raw read: 1 exactly when the byte is '0'. */
  lemma ReportedInvertsRead(c: char)
    ensures Reported(Level(c)) == 1 - Level(c)
    ensures Reported(Level(c)) == 1 <==> c == '0'
  {
  }

  // ---------------------------------------------------------------------------
  // Shutdown trigger

  /** An opaque identity for a shutdown callback. */
  type ShutFun = int

  /** The globals `shutdown_key1_ix`, `shutdown_key2_ix` and `shutdown_fun`
      (None is NULL). */
  datatype Shutdown = Shutdown(ix1: int, ix2: int, fun: Option<ShutFun>)

  const Unset: Shutdown := Shutdown(-1, -1, None)

  /** Each index is -1 or a table index, and an installed callback has both. */
  predicate ShutdownValid(sd: Shutdown, n: nat)
  {
    (sd.ix1 == -1 || 0 <= sd.ix1 < n) &&
    (sd.ix2 == -1 || 0 <= sd.ix2 < n) &&
    (sd.fun.Some? ==> sd.ix1 != -1 && sd.ix2 != -1)
  }

  /** `_shutdown_hook`: the callback runs when one is installed and both trigger
      channels' stored raw level is 0 (held down). */
  function HookFires(sd: Shutdown, state: seq<int>): (fires: bool)
    requires ShutdownValid(sd, |state|)
  {
    sd.fun.Some? && state[sd.ix1] == 0 && state[sd.ix2] == 0
  }

  /** The index the forward loop of `gpio_shutdown_set` leaves behind: it never
      breaks, so the last matching index wins; with no match the old value stays. */
  function LastIndex(keys: seq<int>, key: int, old_ix: int): (ix: int)
    decreases |keys|
  {
    if keys == [] then old_ix
    else if keys[|keys| - 1] == key then |keys| - 1
    else LastIndex(keys[..|keys| - 1], key, old_ix)
  }

  /** `gpio_shutdown_set` with the validity test on both indices. The indices are
      rewritten even when the call fails, and are never reset between calls. */
  function Register(keys: seq<int>, sd: Shutdown, fun: Option<ShutFun>, key1: int, key2: int): (r: (int, Shutdown))
  {
    var i1 := LastIndex(keys, key1, sd.ix1);
    var i2 := LastIndex(keys, key2, sd.ix2);
    if i1 == -1 || i2 == -1 then (-1, Shutdown(i1, i2, sd.fun))
    else (0, Shutdown(i1, i2, fun))
  }

  /** `gpio_shutdown_set` as written: the validity test looks at the first index
      twice and never at the second. */
  function RegisterAsWritten(keys: seq<int>, sd: Shutdown, fun: Option<ShutFun>, key1: int, key2: int): (r: (int, Shutdown))
  {
    var i1 := LastIndex(keys, key1, sd.ix1);
    var i2 := LastIndex(keys, key2, sd.ix2);
    if i1 == -1 || i1 == -1 then (-1, Shutdown(i1, i2, sd.fun))
    else (0, Shutdown(i1, i2, fun))
  }

  // ---------------------------------------------------------------------------
  // The bank and one scan pass

  /** Per-channel stored level, readiness flag and arming, plus the trigger. */
  datatype Bank = Bank(state: seq<int>, ready: seq<bool>, armed: seq<bool>, shutdown: Shutdown)

  /** The bank before `gpio_init`: static storage is zero, the pollfd array is
      zero-filled on first use (nothing ready, nothing armed), no trigger set. */
  function Initial(n: nat): (b: Bank)
  {
    Bank(seq(n, _ => 0), seq(n, _ => false), seq(n, _ => false), Unset)
  }

  /** The invariant the bank keeps: one entry per channel, binary levels, a flag
      is only ever raised on an armed channel, and the trigger indices are usable. */
  predicate Inv(n: nat, b: Bank)
  {
    |b.state| == n && |b.ready| == n && |b.armed| == n &&
    (forall k :: 0 <= k < n ==> b.state[k] == 0 || b.state[k] == 1) &&
    (forall k :: 0 <= k < n ==> b.ready[k] ==> b.armed[k]) &&
    ShutdownValid(b.shutdown, n)
  }

  /** How one pass over the channels ends: a genuine transition of channel `ix`
      to raw level `raw`, a failed read of channel `ix`, or no transition. */
  datatype ScanOutcome = Changed(ix: nat, raw: int) | ReadFailed(ix: nat) | Quiet

  /** Channel k lets the scan go on: it is not ready, or it re-reads its stored level. */
  predicate Settled(b: Bank, s: seq<Sample>, k: nat)
    requires k < |b.ready| == |b.state| == |s|
  {
    !b.ready[k] || (s[k].Byte? && Level(s[k].c) == b.state[k])
  }

  /** Channel k is ready and re-reads a level different from its stored one. */
  predicate Changes(b: Bank, s: seq<Sample>, k: nat)
    requires k < |b.ready| == |b.state| == |s|
  {
    b.ready[k] && s[k].Byte? && Level(s[k].c) != b.state[k]
  }

  /** The inner loop of `gpio_event` from channel i on; `s[k]` is what reading
      channel k would yield during this pass. */
  function ScanFrom(b: Bank, s: seq<Sample>, i: nat): (r: ScanOutcome)
    requires |b.ready| == |b.state| == |s| && i <= |s|
    ensures !r.Quiet? ==> i <= r.ix < |s| && b.ready[r.ix]
    ensures r.Changed? ==> s[r.ix].Byte? && r.raw == Level(s[r.ix].c) != b.state[r.ix]
    decreases |s| - i
  {
    if i == |s| then Quiet
    else if !b.ready[i] then ScanFrom(b, s, i + 1)
    else match s[i]
      case ReadError => ReadFailed(i)
      case Byte(c) =>
        if Level(c) != b.state[i] then Changed(i, Level(c)) else ScanFrom(b, s, i + 1)
  }

  function Scan(b: Bank, s: seq<Sample>): (r: ScanOutcome)
    requires |b.ready| == |b.state| == |s|
  {
    ScanFrom(b, s, 0)
  }

  /** Channels below `upto` have had their flag cleared and been re-armed. */
  function Settle(b: Bank, upto: nat): (b': Bank)
    requires |b.ready| == |b.armed|
  {
    b.(ready := seq(|b.ready|, k requires 0 <= k < |b.ready| => if k < upto then false else b.ready[k]),
       armed := seq(|b.armed|, k requires 0 <= k < |b.armed| => k < upto || b.armed[k]))
  }

  /** The bank after a pass that ended with `out`: the channels passed over are
      cleared and re-armed, the stopping channel's flag is cleared (and, on a
      transition, its level stored), later channels are untouched. */
  function AfterScan(b: Bank, out: ScanOutcome): (b': Bank)
    requires |b.ready| == |b.armed| == |b.state|
    requires !out.Quiet? ==> out.ix < |b.ready|
  {
    match out
    case Quiet => Settle(b, |b.ready|)
    case ReadFailed(j) =>
      var t := Settle(b, j); t.(ready := t.ready[j := false])
    case Changed(j, raw) =>
      var t := Settle(b, j); t.(ready := t.ready[j := false], state := b.state[j := raw])
  }

  /** poll(2) over a fully armed pollfd array: exactly the woken channels get the
      POLLPRI bit in `revents`. */
  function PollStep(b: Bank, fds: set<int>): (b': Bank)
    requires |b.ready| == |b.armed|
    requires forall k :: 0 <= k < |b.armed| ==> b.armed[k]
  {
    b.(ready := seq(|b.ready|, k => k in fds))
  }

  // ---------------------------------------------------------------------------
  // One call of gpio_event, and a sequence of calls

  /** What poll(2) does: wakes with a set of channels carrying POLLPRI, or fails. */
  datatype Wake = Woken(fds: set<int>) | PollFailed

  /** One poll followed by the reads of the pass that comes after it. */
  datatype Round = Round(wake: Wake, sample: seq<Sample>)

  /** A returned key and reported level (and whether the shutdown callback ran),
      an exit of the process, or still blocked in poll when the rounds run out. */
  datatype EventResult = Key(key: int, val: int, shutdown: bool) | Exit(status: int) | Blocked

  predicate Fits(n: nat, first: seq<Sample>, rounds: seq<Round>)
  {
    |first| == n && forall r :: r in rounds ==> |r.sample| == n
  }

  /** `gpio_event`: scan with the flags left from before; on a quiet pass, poll
      and scan again with the next round. */
  function Run(keys: seq<int>, b: Bank, first: seq<Sample>, rounds: seq<Round>): (r: (EventResult, Bank))
    requires Inv(|keys|, b) && Fits(|keys|, first, rounds)
    ensures Inv(|keys|, r.1) && r.1.shutdown == b.shutdown
    decreases |rounds|
  {
    var out := Scan(b, first);
    var b1 := AfterScan(b, out);
    match out
    case Changed(j, raw) => (Key(keys[j], Reported(raw), HookFires(b1.shutdown, b1.state)), b1)
    case ReadFailed(_) => (Exit(0), b1)
    case Quiet =>
      if rounds == [] then (Blocked, b1)
      else match rounds[0].wake
        case PollFailed => (Exit(1), b1)
        case Woken(fds) => Run(keys, PollStep(b1, fds), rounds[0].sample, rounds[1..])
  }

  /** The environment of one call. */
  datatype Call = Call(first: seq<Sample>, rounds: seq<Round>)

  predicate CallsFit(n: nat, calls: seq<Call>)
  {
    forall c :: c in calls ==> Fits(n, c.first, c.rounds)
  }

  /** The driver's forever loop: `gpio_event` called again and again. */
  function Drive(keys: seq<int>, b: Bank, calls: seq<Call>): (r: (seq<EventResult>, Bank))
    requires Inv(|keys|, b) && CallsFit(|keys|, calls)
    ensures |r.0| == |calls|
    decreases |calls|
  {
    if calls == [] then ([], b)
    else
      var step := Run(keys, b, calls[0].first, calls[0].rounds);
      var rest := Drive(keys, step.1, calls[1..]);
      ([step.0] + rest.0, rest.1)
  }

  // ---------------------------------------------------------------------------
  // Lemmas: the scan

  /** A pass is quiet exactly when every channel is settled; otherwise it stops at
      the lowest channel that is not, with a transition to the freshly read level
      or with the failed read. */
  lemma {:induction false} ScanFromFirst(b: Bank, s: seq<Sample>, i: nat)
    requires |b.ready| == |b.state| == |s| && i <= |s|
    ensures ScanFrom(b, s, i).Quiet? <==> forall k :: i <= k < |s| ==> Settled(b, s, k)
    ensures ScanFrom(b, s, i).Changed? ==>
      var j := ScanFrom(b, s, i).ix;
      Changes(b, s, j) && ScanFrom(b, s, i).raw == Level(s[j].c) &&
      forall k :: i <= k < j ==> Settled(b, s, k)
    ensures ScanFrom(b, s, i).ReadFailed? ==>
      var j := ScanFrom(b, s, i).ix;
      b.ready[j] && s[j].ReadError? && forall k :: i <= k < j ==> Settled(b, s, k)
    decreases |s| - i
  {
    if i < |s| {
      ScanFromFirst(b, s, i + 1);
      if Settled(b, s, i) {
        forall k | i <= k < |s| && (forall m :: i + 1 <= m < |s| ==> Settled(b, s, m))
          ensures Settled(b, s, k)
        {
        }
      }
    }
  }

  /** The lowest ready channel whose read differs wins, when every ready channel
      before it read back its stored level. */
  lemma ScanPicksLowest(b: Bank, s: seq<Sample>, j: nat)
    requires |b.ready| == |b.state| == |s| && j < |s|
    requires Changes(b, s, j) && forall k :: 0 <= k < j ==> Settled(b, s, k)
    ensures Scan(b, s) == Changed(j, Level(s[j].c))
  {
    ScanFromFirst(b, s, 0);
    var r := Scan(b, s);
    assert !Settled(b, s, j);
    assert !r.Quiet? && !Settled(b, s, r.ix);
  }

  /** Passing over channel i clears its flag and re-arms it. */
  lemma SettleStep(b: Bank, i: nat)
    requires |b.ready| == |b.armed| && i < |b.ready|
    ensures Settle(b, i + 1) ==
      Settle(b, i).(ready := Settle(b, i).ready[i := false], armed := Settle(b, i).armed[i := true])
  {
  }

  /** A pass keeps the bank invariant and leaves the trigger as it was. */
  lemma AfterScanKeepsInv(n: nat, b: Bank, s: seq<Sample>)
    requires Inv(n, b) && |s| == n
    ensures Inv(n, AfterScan(b, Scan(b, s)))
    ensures AfterScan(b, Scan(b, s)).shutdown == b.shutdown
  {
  }

  // ---------------------------------------------------------------------------
  // Lemmas: one call

  /** What one call does to the stored levels: a returned key belongs to the channel
      whose level changed; the reported value is the inverse of the new raw level
      (so 1 exactly when the fresh read is 0) and equals the previous raw level;
      no other channel's level changes; and the shutdown callback runs exactly when
      one is installed and both trigger channels' levels are 0 after the update.
      A call that does not return a key changes no level. */
  lemma {:induction false} RunEffect(keys: seq<int>, b: Bank, first: seq<Sample>, rounds: seq<Round>)
    requires Inv(|keys|, b) && Fits(|keys|, first, rounds)
    ensures var (res, b') := Run(keys, b, first, rounds);
      (res.Key? ==> (exists j :: 0 <= j < |keys| && keys[j] == res.key &&
                       res.val == b.state[j] && b'.state == b.state[j := 1 - res.val] &&
                       (res.val == 1 <==> b'.state[j] == 0) &&
                       res.shutdown == HookFires(b.shutdown, b'.state))) &&
      (!res.Key? ==> b'.state == b.state)
    decreases |rounds|
  {
    var out := Scan(b, first);
    var b1 := AfterScan(b, out);
    match out
    case Changed(j, raw) =>
      ScanFromFirst(b, first, 0);
      assert b1.state == b.state[j := raw];
    case ReadFailed(_) =>
    case Quiet =>
      if rounds != [] && rounds[0].wake.Woken? {
        var b2 := PollStep(b1, rounds[0].wake.fds);
        assert b2.state == b.state;
        RunEffect(keys, b2, rounds[0].sample, rounds[1..]);
      }
  }

  /** A ready channel that bounced back to its stored level produces no event: with
      no other activity, the call blocks in poll with the level unchanged, every
      flag cleared and every channel re-armed. */
  lemma BounceIsSilent(keys: seq<int>, b: Bank, first: seq<Sample>, j: nat)
    requires Inv(|keys|, b) && Fits(|keys|, first, []) && j < |keys|
    requires forall k :: 0 <= k < |keys| ==> (b.ready[k] <==> k == j)
    requires first[j].Byte? && Level(first[j].c) == b.state[j]
    ensures Run(keys, b, first, []).0 == Blocked
    ensures Run(keys, b, first, []).1 == b.(ready := seq(|keys|, _ => false), armed := seq(|keys|, _ => true))
  {
    ScanFromFirst(b, first, 0);
    assert forall k :: 0 <= k < |keys| ==> Settled(b, first, k);
  }

  /** A single genuine transition: with no flag pending, one poll that wakes only
      channel i, whose read differs from its stored level, makes the call return
      channel i's key with the inverse of the read level; nothing is read before
      the poll. */
  lemma SingleTransition(keys: seq<int>, b: Bank, first: seq<Sample>, s: seq<Sample>, rest: seq<Round>, i: nat)
    requires Inv(|keys|, b) && i < |keys| && Fits(|keys|, first, [Round(Woken({i}), s)] + rest)
    requires forall k :: 0 <= k < |keys| ==> !b.ready[k]
    requires s[i].Byte? && Level(s[i].c) != b.state[i]
    ensures Run(keys, b, first, [Round(Woken({i}), s)] + rest).0.Key?
    ensures Run(keys, b, first, [Round(Woken({i}), s)] + rest).0.key == keys[i]
    ensures Run(keys, b, first, [Round(Woken({i}), s)] + rest).0.val == Reported(Level(s[i].c))
  {
    var rounds := [Round(Woken({i}), s)] + rest;
    ScanFromFirst(b, first, 0);
    assert forall k :: 0 <= k < |keys| ==> Settled(b, first, k);
    var b1 := AfterScan(b, Quiet);
    var b2 := PollStep(b1, {i});
    assert rounds[1..] == rest;
    forall k | 0 <= k < i ensures Settled(b2, s, k) {
      assert !b2.ready[k];
    }
    ScanPicksLowest(b2, s, i);
  }

  /** Two channels i < j flagged by the same wake, both changed: the first call
      returns i and leaves j's flag set; the next call returns j from that flag
      before polling again, whatever the later rounds hold. */
  lemma TwoChangesOneWake(keys: seq<int>, b: Bank, s1: seq<Sample>, r1: seq<Round>,
                          s2: seq<Sample>, r2: seq<Round>, i: nat, j: nat)
    requires Inv(|keys|, b) && Fits(|keys|, s1, r1) && Fits(|keys|, s2, r2)
    requires i < j < |keys|
    requires forall k :: 0 <= k < |keys| ==> (b.ready[k] <==> k == i || k == j)
    requires Changes(b, s1, i)
    requires s2[j].Byte? && Level(s2[j].c) != b.state[j]
    ensures Run(keys, b, s1, r1).0.Key? && Run(keys, b, s1, r1).0.key == keys[i]
    ensures Run(keys, b, s1, r1).1.ready[j]
    ensures Run(keys, Run(keys, b, s1, r1).1, s2, r2) == Run(keys, Run(keys, b, s1, r1).1, s2, [])
    ensures Run(keys, Run(keys, b, s1, r1).1, s2, r2).0.Key?
    ensures Run(keys, Run(keys, b, s1, r1).1, s2, r2).0.key == keys[j]
  {
    forall k | 0 <= k < i ensures Settled(b, s1, k) {
      assert !b.ready[k];
    }
    ScanPicksLowest(b, s1, i);
    var b1 := Run(keys, b, s1, r1).1;
    assert b1 == AfterScan(b, Changed(i, Level(s1[i].c)));
    forall k | 0 <= k < j ensures Settled(b1, s2, k) {
      assert !b1.ready[k];
    }
    ScanPicksLowest(b1, s2, j);
  }

  /** A pass clears the flag of every channel it passes over and re-arms it; the
      channel it stops at has its flag cleared but is not re-armed; the channels
      after it keep their flag and arming. Only a transition changes a level. */
  lemma PassClearsWhatItPasses(b: Bank, out: ScanOutcome)
    requires |b.ready| == |b.armed| == |b.state|
    requires !out.Quiet? ==> out.ix < |b.ready|
    ensures var b' := AfterScan(b, out);
      var stop := if out.Quiet? then |b.ready| else out.ix;
      |b'.ready| == |b'.armed| == |b'.state| == |b.ready| && b'.shutdown == b.shutdown &&
      (forall k :: 0 <= k < stop ==> !b'.ready[k] && b'.armed[k]) &&
      (!out.Quiet? ==> !b'.ready[out.ix] && b'.armed[out.ix] == b.armed[out.ix]) &&
      (forall k :: stop < k < |b.ready| ==> b'.ready[k] == b.ready[k] && b'.armed[k] == b.armed[k]) &&
      b'.state == (if out.Changed? then b.state[out.ix := out.raw] else b.state)
  {
  }

  /** A call whose first pass finds a transition returns without polling, so the
      later rounds play no part, and every flag after the returned channel is left
      as it was for the next call. */
  lemma LaterFlagsSurvive(keys: seq<int>, b: Bank, first: seq<Sample>, rounds: seq<Round>)
    requires Inv(|keys|, b) && Fits(|keys|, first, rounds)
    requires Scan(b, first).Changed?
    ensures Run(keys, b, first, rounds) == Run(keys, b, first, [])
    ensures Run(keys, b, first, rounds).0 == Key(keys[Scan(b, first).ix], Reported(Scan(b, first).raw),
                                                 Run(keys, b, first, rounds).0.shutdown)
    ensures forall k :: Scan(b, first).ix < k < |keys| ==>
      Run(keys, b, first, rounds).1.ready[k] == b.ready[k]
  {
  }

  /** A flag left set on a channel whose level now differs is served before any
      poll: the call returns a key at or before that channel (or exits on a failed
      read before it), whatever the later rounds hold. */
  lemma PendingChangeNeedsNoPoll(keys: seq<int>, b: Bank, first: seq<Sample>, rounds: seq<Round>, k: nat)
    requires Inv(|keys|, b) && Fits(|keys|, first, rounds) && k < |keys|
    requires Changes(b, first, k)
    ensures !Scan(b, first).Quiet? && Scan(b, first).ix <= k
    ensures Run(keys, b, first, rounds) == Run(keys, b, first, [])
    ensures Run(keys, b, first, rounds).0.Key? || Run(keys, b, first, rounds).0 == Exit(0)
    ensures Run(keys, b, first, rounds).0.Key? ==> Run(keys, b, first, rounds).0.key == keys[Scan(b, first).ix]
  {
    ScanFromFirst(b, first, 0);
    assert !Settled(b, first, k);
    assert !Scan(b, first).Quiet?;
  }

  // ---------------------------------------------------------------------------
  // Lemmas: sequences of calls

  /** The first event of a key in a run of calls reports the level its channel
      stored before the run. */
  lemma {:induction false} FirstEventReportsStoredLevel(keys: seq<int>, b: Bank, calls: seq<Call>, z: nat, j: nat)
    requires Distinct(keys) && Inv(|keys|, b) && CallsFit(|keys|, calls)
    requires j < |keys| && z < |calls|
    requires Drive(keys, b, calls).0[z].Key? && Drive(keys, b, calls).0[z].key == keys[j]
    requires forall m :: 0 <= m < z ==> !(Drive(keys, b, calls).0[m].Key? && Drive(keys, b, calls).0[m].key == keys[j])
    ensures Drive(keys, b, calls).0[z].val == b.state[j]
    decreases z
  {
    var step := Run(keys, b, calls[0].first, calls[0].rounds);
    var rs := Drive(keys, b, calls).0;
    assert rs[0] == step.0;
    RunEffect(keys, b, calls[0].first, calls[0].rounds);
    if z == 0 {
      var j' :| 0 <= j' < |keys| && keys[j'] == step.0.key && step.0.val == b.state[j'];
      assert j' == j;
    } else {
      assert calls[1..][0] == calls[1];
      assert forall m :: 0 <= m < z - 1 ==> Drive(keys, step.1, calls[1..]).0[m] == rs[m + 1];
      FirstEventReportsStoredLevel(keys, step.1, calls[1..], z - 1, j);
      assert rs[z] == Drive(keys, step.1, calls[1..]).0[z - 1];
      if step.0.Key? {
        var j' :| 0 <= j' < |keys| && keys[j'] == step.0.key && step.1.state == b.state[j' := 1 - step.0.val];
        assert j' != j;
      }
    }
  }

  /** No duplicate events: two events of the same key with no event of that key in
      between report different levels. */
  lemma {:induction false} SameKeyAlternates(keys: seq<int>, b: Bank, calls: seq<Call>, a: nat, z: nat)
    requires Distinct(keys) && Inv(|keys|, b) && CallsFit(|keys|, calls)
    requires a < z < |calls|
    requires Drive(keys, b, calls).0[a].Key? && Drive(keys, b, calls).0[z].Key?
    requires Drive(keys, b, calls).0[z].key == Drive(keys, b, calls).0[a].key
    requires forall m :: a < m < z ==>
      !(Drive(keys, b, calls).0[m].Key? && Drive(keys, b, calls).0[m].key == Drive(keys, b, calls).0[a].key)
    ensures Drive(keys, b, calls).0[z].val != Drive(keys, b, calls).0[a].val
    decreases a
  {
    var rs := Drive(keys, b, calls).0;
    var step := Run(keys, b, calls[0].first, calls[0].rounds);
    var tail := calls[1..];
    var rest := Drive(keys, step.1, tail).0;
    assert rs == [step.0] + rest;
    var key := rs[a].key;
    if a == 0 {
      RunEffect(keys, b, calls[0].first, calls[0].rounds);
      var j :| 0 <= j < |keys| && keys[j] == step.0.key && step.0.val == b.state[j] &&
        step.1.state == b.state[j := 1 - step.0.val];
      forall m | 0 <= m < z - 1 ensures !(rest[m].Key? && rest[m].key == keys[j]) {
        assert rest[m] == rs[m + 1];
      }
      assert rest[z - 1] == rs[z];
      FirstEventReportsStoredLevel(keys, step.1, tail, z - 1, j);
    } else {
      forall m | a - 1 < m < z - 1 ensures !(rest[m].Key? && rest[m].key == rest[a - 1].key) {
        assert rest[m] == rs[m + 1];
      }
      assert rest[a - 1] == rs[a] && rest[z - 1] == rs[z];
      SameKeyAlternates(keys, step.1, tail, a - 1, z - 1);
    }
  }

  // ---------------------------------------------------------------------------
  // Lemmas: the shutdown trigger

  /** The loop of `gpio_shutdown_set` leaves the last index holding the key, or the
      old value when no entry holds it. */
  lemma {:induction false} LastIndexIsLast(keys: seq<int>, key: int, old_ix: int)
    ensures key in keys ==>
      var r := LastIndex(keys, key, old_ix);
      0 <= r < |keys| && keys[r] == key && forall k :: r < k < |keys| ==> keys[k] != key
    ensures key !in keys ==> LastIndex(keys, key, old_ix) == old_ix
    decreases |keys|
  {
    if keys != [] {
      var init := keys[..|keys| - 1];
      LastIndexIsLast(init, key, old_ix);
      assert keys == init + [keys[|keys| - 1]];
      if keys[|keys| - 1] != key {
        assert key in keys ==> key in init;
      }
    }
  }

  /** Registration succeeds exactly when each key is in the table or its index is
      left over from an earlier call; on success the callback is installed, on
      failure the old one stays; the trigger indices stay usable by the hook. */
  lemma RegisterChecksBothKeys(keys: seq<int>, sd: Shutdown, fun: Option<ShutFun>, key1: int, key2: int)
    requires ShutdownValid(sd, |keys|)
    ensures var (rc, sd') := Register(keys, sd, fun, key1, key2);
      (rc == 0 <==> (key1 in keys || sd.ix1 != -1) && (key2 in keys || sd.ix2 != -1)) &&
      (rc == 0 || rc == -1) &&
      sd'.fun == (if rc == 0 then fun else sd.fun) &&
      (key1 in keys ==> 0 <= sd'.ix1 < |keys| && keys[sd'.ix1] == key1) &&
      (key1 !in keys ==> sd'.ix1 == sd.ix1) &&
      (key2 in keys ==> 0 <= sd'.ix2 < |keys| && keys[sd'.ix2] == key2) &&
      (key2 !in keys ==> sd'.ix2 == sd.ix2) &&
      ShutdownValid(sd', |keys|)
  {
    LastIndexIsLast(keys, key1, sd.ix1);
    LastIndexIsLast(keys, key2, sd.ix2);
  }

  /** On a first registration both keys must be in the table; a rejected one
      installs nothing, so the hook can never fire afterwards. */
  lemma FirstRegisterNeedsBothKeys(keys: seq<int>, fun: Option<ShutFun>, key1: int, key2: int)
    ensures var (rc, sd') := Register(keys, Unset, fun, key1, key2);
      (rc == 0 <==> key1 in keys && key2 in keys) &&
      ShutdownValid(sd', |keys|) &&
      (rc != 0 ==> forall st: seq<int> :: |st| == |keys| ==> !HookFires(sd', st))
  {
    RegisterChecksBothKeys(keys, Unset, fun, key1, key2);
  }

  /** Indices are never reset: after a successful registration, a second one naming
      two keys absent from the table still succeeds and keeps the old indices. */
  lemma StaleIndicesAccepted(keys: seq<int>, sd: Shutdown, fun: Option<ShutFun>, key1: int, key2: int)
    requires ShutdownValid(sd, |keys|) && sd.fun.Some?
    requires key1 !in keys && key2 !in keys
    ensures Register(keys, sd, fun, key1, key2) == (0, Shutdown(sd.ix1, sd.ix2, fun))
  {
    LastIndexIsLast(keys, key1, sd.ix1);
    LastIndexIsLast(keys, key2, sd.ix2);
  }

  /** The code as written accepts a second key that is not in the table: on a first
      call it installs the callback with the second index still -1, so the hook
      would read the entry before the table. */
  lemma AsWrittenAcceptsMissingKey2(keys: seq<int>, f: ShutFun, key1: int, key2: int)
    requires key1 in keys && key2 !in keys
    ensures RegisterAsWritten(keys, Unset, Some(f), key1, key2).0 == 0
    ensures RegisterAsWritten(keys, Unset, Some(f), key1, key2).1.fun == Some(f)
    ensures RegisterAsWritten(keys, Unset, Some(f), key1, key2).1.ix2 == -1
    ensures !ShutdownValid(RegisterAsWritten(keys, Unset, Some(f), key1, key2).1, |keys|)
    ensures Register(keys, Unset, Some(f), key1, key2).0 == -1
  {
    LastIndexIsLast(keys, key1, -1);
    LastIndexIsLast(keys, key2, -1);
  }

  /** The combination the driver installs (the coin button and Esc) resolves to the
      two side buttons of the table. */
  lemma DriverComboRegisters(f: ShutFun)
    ensures Register(KeysOf(Table), Unset, Some(f), KeyFive, KeyEsc) == (0, Shutdown(9, 10, Some(f)))
  {
    var keys := KeysOf(Table);
    LastIndexIsLast(keys, KeyFive, -1);
    LastIndexIsLast(keys, KeyEsc, -1);
    assert keys[9] == KeyFive && keys[10] == KeyEsc;
  }

  /** What `_shutdown_hook` promises about a call, once a first registration of
      `key1` and `key2` has succeeded: pressing one trigger key (reported 1) runs
      the callback exactly when the other trigger channel is already held (raw 0);
      releasing one never runs it; any other key runs it exactly when both trigger
      channels are held. With one key named twice, pressing it runs the callback. */
  lemma HookFiresOnCombo(keys: seq<int>, b: Bank, first: seq<Sample>, rounds: seq<Round>,
                         f: ShutFun, key1: int, key2: int)
    requires Distinct(keys) && Inv(|keys|, b) && Fits(|keys|, first, rounds)
    requires Register(keys, Unset, Some(f), key1, key2).0 == 0
    requires b.shutdown == Register(keys, Unset, Some(f), key1, key2).1
    ensures var sd := b.shutdown;
      0 <= sd.ix1 < |keys| && keys[sd.ix1] == key1 && 0 <= sd.ix2 < |keys| && keys[sd.ix2] == key2
    ensures var (res, sd) := (Run(keys, b, first, rounds).0, b.shutdown);
      res.Key? ==>
        (res.key == key1 && res.val == 1 ==> (res.shutdown <==> key1 == key2 || b.state[sd.ix2] == 0)) &&
        (res.key == key2 && res.val == 1 ==> (res.shutdown <==> key1 == key2 || b.state[sd.ix1] == 0)) &&
        ((res.key == key1 || res.key == key2) && res.val == 0 ==> !res.shutdown) &&
        (res.key != key1 && res.key != key2 ==> (res.shutdown <==> b.state[sd.ix1] == 0 && b.state[sd.ix2] == 0))
  {
    RegisterChecksBothKeys(keys, Unset, Some(f), key1, key2);
    RunEffect(keys, b, first, rounds);
    var (res, b') := Run(keys, b, first, rounds);
    if res.Key? {
      var j :| 0 <= j < |keys| && keys[j] == res.key && res.val == b.state[j] &&
        b'.state == b.state[j := 1 - res.val] && res.shutdown == HookFires(b.shutdown, b'.state);
      if res.key == key1 { assert j == b.shutdown.ix1; }
      if res.key == key2 { assert j == b.shutdown.ix2; }
      if res.key != key1 && res.key != key2 {
        assert j != b.shutdown.ix1 && j != b.shutdown.ix2;
      }
    }
  }

  /** The driver's combination: with the coin key and Esc installed, a call that
      returns the coin key pressed runs the callback exactly when Esc is held, and
      the other way round. */
  lemma DriverComboFires(f: ShutFun, b: Bank, first: seq<Sample>, rounds: seq<Round>)
    requires Inv(|Table|, b) && Fits(|Table|, first, rounds)
    requires b.shutdown == Shutdown(9, 10, Some(f))
    ensures var res := Run(KeysOf(Table), b, first, rounds).0;
      res.Key? && res.val == 1 ==>
        (res.key == KeyFive ==> (res.shutdown <==> b.state[10] == 0)) &&
        (res.key == KeyEsc ==> (res.shutdown <==> b.state[9] == 0))
  {
    TableKeysDistinct();
    DriverComboRegisters(f);
    HookFiresOnCombo(KeysOf(Table), b, first, rounds, f, KeyFive, KeyEsc);
  }

  /** The table maps every channel to its own key. */
  lemma TableKeysDistinct()
    ensures Distinct(KeysOf(Table))
  {
    var keys := KeysOf(Table);
    assert keys == [108, 103, 106, 105, 28, 56, 57, 2, 3, 6, 1, 33, 19, 34, 32, 30, 31, 16];
  }
}
