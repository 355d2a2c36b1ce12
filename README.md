# pi-gpio-uinput input bank, modelled in Dafny

pi-gpio-uinput turns arcade buttons wired to Raspberry Pi GPIO lines into keyboard
events. Its core, `gpio.c`, keeps a fixed table of 18 channels, each a GPIO pin
with a Linux key code and the last raw level seen (`state`). `gpio_event` waits in
poll(2) for edge notifications and scans the channels in table order. For every
channel whose POLLPRI flag is set, it clears the flag, sleeps for the debounce
delay and re-reads the level. The first channel whose level differs from `state`
gets the new level stored. The shutdown hook then runs, and the key is returned
with the inverted level (raw 0, button held, is reported as 1). A channel that
reads back its stored level is re-armed silently.

The pollfd array is `static`. Flags of channels after the returned one stay set,
so the next call serves them before it polls again. `gpio_shutdown_set` looks up
the two trigger keys. `gpio_map_keys` hands every key to a registration callback.

The project has two modules:

- `GpioModel` (gpio_model.dfy) is the value-level model. A `Bank` holds the levels,
  the readiness flags, the arming of each pollfd entry and the shutdown trigger.
  `Scan` is one pass of the inner loop. `Run` is one call of `gpio_event`, and
  `Drive` is the driver calling it again and again. `Register` is
  `gpio_shutdown_set`, `HookFires` is the condition of `_shutdown_hook`, and
  `PollStep` is what poll(2) does to the pollfd flags. The lemmas prove what the
  code promises about these.
- `Gpio` (gpio.dfy) is the class `InputBank`. The levels and the two pollfd flags
  are arrays updated in place, and the shutdown globals are fields. Every method
  except `MapKeys` is proved against the functions of `GpioModel`; the contract of
  `MapKeys` is stated directly on the keys and the callback's replies.

The environment is data. A call receives what the reads of the first pass
yield, then a list of rounds. Each round is one poll result (the woken channels,
or a failure) and the reads of the pass that follows it. When the rounds run out
the call is still blocked in poll (`Blocked`). A failed lseek or read ends the
process with status 0 (`Exit(0)`), as `_read_value` does. A failed poll ends it
with status 1.

## Model

| member | source | states |
|---|---|---|
| `GpioModel.Level` | gpio.c:215-228 | a byte read from a value file gives a binary raw level |
| `GpioModel.ReportedInvertsRead` | gpio.c:296-300 | the reported level is 1 minus the raw read: 1 exactly when the byte is '0' |
| `GpioModel.TableKeysDistinct` | gpio.c:69-91 | every channel of the table has its own key |
| `GpioModel.ScanFrom` | gpio.c:292-303 | a pass stops only at a ready channel; a transition's outcome carries the fresh read, which differs from the channel's stored level |
| `GpioModel.ScanFromFirst` | gpio.c:292-307 | a pass is quiet iff every channel is unflagged or reads back its level; otherwise it stops at the lowest channel that is neither, with that transition or with the failed read |
| `GpioModel.ScanPicksLowest` | gpio.c:292-302 | the lowest ready channel whose read differs wins when every ready channel before it read back its stored level |
| `GpioModel.SettleStep` | gpio.c:304-306 | passing over a channel clears its flag and re-arms it |
| `GpioModel.PassClearsWhatItPasses` | gpio.c:293-306 | every channel a pass goes past has its flag cleared and is re-armed (all of them on a quiet pass); the stopping channel's flag is cleared; later channels keep flag and arming; only a transition changes a level, to the fresh read |
| `GpioModel.AfterScanKeepsInv` | gpio.c:291-307 | a pass keeps the levels binary, raises no flag on an unarmed channel and leaves the trigger untouched |
| `GpioModel.Run` | gpio.c:278-315 | a call keeps the bank invariant and never changes the shutdown trigger |
| `GpioModel.RunEffect` | gpio.c:292-302 | a returned key belongs to a channel whose level flipped; its value is the old raw level and the inverse of the new one; no other level changes; the callback ran iff one is installed and both trigger levels are 0 after the update; a call without a key changes no level |
| `GpioModel.BounceIsSilent` | gpio.c:293-307 | a flagged channel that reads back its stored level yields no event: the call blocks with levels unchanged, all flags cleared and all channels armed |
| `GpioModel.SingleTransition` | gpio.c:291-311 | with nothing pending, a poll waking one changed channel makes the call return that key with the inverted read |
| `GpioModel.LaterFlagsSurvive` | gpio.c:280-302 | a call whose first pass finds a transition returns that channel's key without polling, whatever the later rounds, and leaves every later flag as it was |
| `GpioModel.PendingChangeNeedsNoPoll` | gpio.c:280-302 | a flag left set on a channel whose level now differs is served before any poll: the call returns a key at or before it, or exits on a failed read |
| `GpioModel.TwoChangesOneWake` | gpio.c:280-302 | two channels changed in one wake: the first call returns the lower one and leaves the other flagged; the next call returns it without polling |
| `GpioModel.FirstEventReportsStoredLevel` | gpio.c:297-300 | the first event of a key in a run of calls reports the level its channel had stored before the run |
| `GpioModel.SameKeyAlternates` | gpio.c:297-300 | two events of one key with none of that key between them report different levels |
| `GpioModel.LastIndexIsLast` | gpio.c:105-110 | the lookup loop leaves the last index holding the key, or the old index if no entry holds it |
| `GpioModel.RegisterChecksBothKeys` | gpio.c:101-117 | registration (corrected test) succeeds iff each key is in the table or has an index left from an earlier call; success installs the callback, failure keeps the old one; indices stay usable |
| `GpioModel.FirstRegisterNeedsBothKeys` | gpio.c:101-117 | a first registration succeeds iff both keys are in the table; a rejected one never lets the hook fire |
| `GpioModel.StaleIndicesAccepted` | gpio.c:58-59 | indices are never reset, so after a successful registration one naming two absent keys succeeds with the old indices |
| `GpioModel.AsWrittenAcceptsMissingKey2` | gpio.c:111 | the test as written accepts a second key missing from the table and installs the callback with index -1 |
| `GpioModel.DriverComboRegisters` | gpio.c:80-81 | registering the coin key and Esc selects table entries 9 and 10 |
| `GpioModel.HookFiresOnCombo` | gpio.c:94-117 | after a successful first registration, a call returning one trigger key pressed runs the callback iff the other trigger channel is held; releasing a trigger key never runs it; any other key runs it iff both trigger channels are held |
| `GpioModel.DriverComboFires` | gpio.c:80-99 | with the coin key and Esc installed, pressing either runs the callback exactly when the other is held |
| `Gpio.InputBank.constructor` | gpio.c:62-91 | the table with all levels 0, an all-zero pollfd array and no shutdown callback |
| `Gpio.InputBank.Init` | gpio.c:255-266 | each channel's level is seeded by a first read in table order; a failed read stops the seeding |
| `Gpio.InputBank.ShutdownSet` | gpio.c:101-117 | the lookup loop keeps the last matching index per key, then the validity test on both indices (the corrected test), equal to `Register`; the trigger stays usable by the hook |
| `Gpio.InputBank.MapKeys` | gpio.c:244-253 | the callback gets the keys in table order; it returns -1 right after the first failing call and 0 when all succeed |
| `Gpio.InputBank.ScanPass` | gpio.c:292-307 | one pass in place, equal to `Scan` and `AfterScan` |
| `Gpio.InputBank.Poll` | gpio.c:308-311 | poll on a fully armed array flags exactly the woken channels |
| `Gpio.InputBank.Event` | gpio.c:278-315 | the whole call in place, equal to `Run`; the hook's condition is read through the accessor `ShutdownHook` on the updated levels |

## Findings

| source | as written | input that shows it | evidently intended | confidence | as-written member | corrected member |
|---|---|---|---|---|---|---|
| gpio.c:111 | `shutdown_key1_ix == -1 \|\| shutdown_key1_ix == -1` tests the first index twice | a first `gpio_shutdown_set` whose key1 is in the table and whose key2 is not: it returns 0, installs the callback and leaves `shutdown_key2_ix` at -1, so `_shutdown_hook` reads `map[-1]` once key1's level is 0 | test `shutdown_key2_ix == -1` as the second operand | high, not executed | `GpioModel.AsWrittenAcceptsMissingKey2` | `GpioModel.FirstRegisterNeedsBothKeys` |

The class `InputBank` and the rest of the model use the corrected test
(`Register`). `RegisterAsWritten` keeps the code as written.

The indices are globals that are never reset. A second registration can
therefore pass on indices left over from the first. The model keeps this as
written (`StaleIndicesAccepted`); the driver registers only once.

## Left out

- The sysfs plumbing (`_export`, `_unexport`, `_input`, `_edge`, `_open_value`) is left out. These are file writes and opens that exit on failure. `Init` models only the seeding reads of `gpio_init`.
- `gpio_fini` is left out: it only closes fds and unexports pins. Its misleading indentation makes `_unexport` run for every pin whatever the fd.
- The `malloc` failure of the pollfd array is left out. The array is modelled as zero-filled from construction.
- The debounce `usleep` is left out. A read is simply the one that happens after the wake. There is no timing.
- Only the POLLPRI bit of `revents` is modelled. Other bits poll may report are not.
- Event: the blocking wait is bounded by the rounds given. When they run out, the result is `Blocked` rather than an endless wait.
- MapKeys: the callback is represented by its replies, one per call in order. Its side effects on the uinput device are not modelled.
- The shutdown callback's own action is not modelled; only whether it runs is.
- uinput.c (the uinput device), pigc.c (option parsing, daemon, the driver loop) and test/readpin.c are not part of this model. `Drive` stands in for the driver loop where lemmas need a sequence of calls.
