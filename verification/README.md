# CrackMaster core in Dafny

A model of the two pieces of CrackMaster that have behaviour of their own:

- **The crack cooldown state machine** (`core/logic.py`, class `CrackLogic`). A session
  has a cooldown, the time of the last successful crack and a crack count. It is
  *Ready* when `now - lastCrack >= cooldown`, and *Cooling* otherwise. The state
  is derived from the fields each time and is never stored. `crack()` is the only
  operation that changes `last_crack` and `crack_count`; a cooldown write also moves the
  session between Ready and Cooling. On success it records the time, increments the count and writes the
  count to `stats.json`. On failure it reports the seconds left. `get_status()` and
  `check_recharge()` are read-only queries that use the same comparison.
- **The settings record** (`core/settings.py`, class `Settings`). This is a key-value
  record loaded from `settings.json`. When that file does not exist it falls back to
  the defaults `{cooldown: 300, theme: 1, language: "ru"}`. Each setter overwrites one
  key and then writes the whole record back to the file.

Files:

- `wrappers.dfy`: `Option`.
- `logic.dfy`: module `CoreLogic`. It holds the pure specification (`Session`,
  `Ready`, `Remaining`, `Attempt`, event runs and their lemmas) and the class
  `CrackLogic`, whose `Crack` method is proved against `Attempt`.
- `settings.dfy`: module `CoreSettings`, with the class `Settings`.
- `interface.dfy`: module `Interface`. It models only `update_cooldown` from the
  UI, which writes a new cooldown into both the settings and the live `CrackLogic`.

How the model stands in for things outside the core:

- The wall clock (`time.time()`) is an integer parameter `now`, in seconds.
- The fact that `core/facts.py` picks at random is a parameter `fact`.
- Translated message texts are replaced by the values they format: the new total,
  the seconds left, or a flag saying whether the recharge message is returned.
- Each JSON file is a small object whose `contents` is an `Option`. `None` means
  the file does not exist, which is the only error the source catches.
- `Settings.DEFAULTS` is a Dafny `const` map. Dafny maps are values, so the copy
  that `load_settings` takes can never alias the defaults, and no later setter
  can change them.

The model follows the code in three places where its behaviour is easy to misread:

- `last_crack` starts at 0, so the very first crack succeeds iff `now >= cooldown`.
  It does not succeed unconditionally (`CoreLogic.Initial`).
- A malformed JSON file is not recovered from. Only a missing file yields the defaults.
- `check_recharge` returns its message on every poll while the session is Ready and
  the count is positive, not just once per Cooling-to-Ready transition
  (`CoreLogic.RechargeRepeats`).

## Model

| member | source | states |
|---|---|---|
| `CoreLogic.Ready` | core/logic.py:34 | the Ready state holds exactly from the instant `lastCrack + cooldown` on, that instant included; the same comparison is made at lines 48 and 56 |
| `CoreLogic.LoadCount` | core/logic.py:62-69 | the count `load_stats` obtains: 0 when the file is missing, 0 when the key `crack_count` is missing, otherwise the stored value |
| `CoreSettings.DefaultsRecord` | core/settings.py:9-13 | `DEFAULTS` has exactly the keys `cooldown`, `theme` and `language`, with the values 300, 1 and `"ru"` |
| `Interface.DefaultCooldownsAgree` | core/logic.py:14 | `DEFAULT_COOLDOWN` is 300, the same value as the settings default that the UI passes to `CrackLogic` at ui/interface.py:28 |
| `CoreLogic.StatsOf` | core/logic.py:62-74 | the record `save_stats` writes has the single key `crack_count`, and `load_stats` reads the same count back from it |
| `CoreLogic.Remaining` | core/logic.py:42 | while Cooling, the reported wait is at least 1 second and is exactly the time until Ready: Ready at `now + wait`, not Ready one second earlier |
| `CoreLogic.Initial` | core/logic.py:16-24 | a new session has the given cooldown and the stored count, which is 0 when there is no file; it is in step with the file; it is Ready at `now` iff `now >= cooldown` |
| `CoreLogic.Attempt` | core/logic.py:26-43 | a crack succeeds iff `now - lastCrack >= cooldown` (inclusive). On success: `lastCrack = now`, count + 1, the file holds the new count, the reply carries the new total and the fact, and the next Ready time is exactly `now + cooldown`. On failure: nothing changes, the fact is `""`, and the wait is ≥ 1 and is exactly the time until Ready |
| `CoreLogic.RunCount` | core/logic.py:34-37 | after any sequence of attempts, polls and cooldown changes, the count equals the starting count plus the number of successful attempts |
| `CoreLogic.RunMonotonic` | core/logic.py:26-60 | the count never decreases across `crack`, `get_status`, `check_recharge` and cooldown changes |
| `CoreLogic.RunPersisted` | core/logic.py:35-37 | if the stored count agrees with the in-memory count, it keeps agreeing through any run |
| `CoreLogic.RunPersistedAfterCrack` | core/logic.py:71-74 | after any run with at least one successful crack, the file holds the current count, whatever it held before |
| `CoreLogic.RestartRestoresCount` | core/logic.py:62-69 | a new `CrackLogic` over the file a run left behind starts from the count the run reached, which is the loaded count plus the successful attempts |
| `CoreLogic.CooldownBoundary` | core/logic.py:34-43 | after a success at `t`, an attempt at `t + cooldown` succeeds, and one at `t + cooldown - 1` fails with a wait of exactly 1 second |
| `CoreLogic.ShorterCooldownTakesEffect` | core/logic.py:34 | a cooldown set to at most the elapsed time makes the very next attempt succeed, even in the middle of Cooling |
| `CoreLogic.LongerCooldownTakesEffect` | core/logic.py:34 | a cooldown set above the elapsed time makes the very next attempt fail with exactly the new remaining wait, though no crack happened; the count is unchanged |
| `CoreLogic.ReadyPersists` | core/logic.py:48 | for a fixed cooldown, once Ready a session stays Ready as time goes on |
| `CoreLogic.Scenario` | core/logic.py:26-43 | cooldown 300, no file: a crack at 1000 succeeds with total 1; one at 1200 waits 100 seconds; one at 1300 succeeds with total 2 and stores 2 |
| `CoreLogic.CrackLogic.constructor` | core/logic.py:16-24 | a new object is `Initial(cooldown, file)`: `last_crack = 0`, the count is loaded, and the cooldown defaults to 300 |
| `CoreLogic.CrackLogic.LoadStats` | core/logic.py:62-69 | the count becomes the file's `crack_count`, or 0 when the file or the key is missing; nothing else changes |
| `CoreLogic.CrackLogic.SaveStats` | core/logic.py:71-74 | the file is overwritten with `{crack_count: count}`, so it is in step with the count |
| `CoreLogic.CrackLogic.Crack` | core/logic.py:26-43 | the new state and the returned triple are exactly those of `Attempt` on the old state; the cooldown is never changed |
| `CoreLogic.CrackLogic.GetStatus` | core/logic.py:45-51 | reports Ready iff `now - lastCrack >= cooldown`; otherwise reports a wait ≥ 1 that is exactly the time until Ready; reads only |
| `CoreLogic.CrackLogic.CheckRecharge` | core/logic.py:53-60 | returns the recharge message iff the status is Ready and at least one crack has been counted; reads only |
| `CoreLogic.StatusAgreesWithCrack` | core/logic.py:34-50 | `get_status` and `crack` agree on readiness for the same time and state, and they report the same wait |
| `CoreLogic.RechargeRepeats` | core/logic.py:53-60 | for a fixed cooldown, while Ready with a positive count, every later poll of `check_recharge` returns the message again; no poll suppresses the next |
| `CoreSettings.Settings.constructor` | core/settings.py:15-17 | the record is the loaded one, which with no file is exactly the defaults; the file is untouched |
| `CoreSettings.Settings.LoadSettings` | core/settings.py:19-25 | with no file, exactly `{cooldown: 300, theme: 1, language: "ru"}` with these three keys; otherwise the stored record |
| `CoreSettings.Settings.SaveSettings` | core/settings.py:27-30 | the file holds the whole in-memory record, and loading it gives the record back |
| `CoreSettings.Settings.GetCooldown` | core/settings.py:32-34 | returns the `cooldown` entry; the key must be present |
| `CoreSettings.Settings.SetCooldown` | core/settings.py:36-39 | stores the value unvalidated; `GetCooldown` then returns it; every other key, `theme` included, is unchanged; the file holds the whole new record |
| `CoreSettings.Settings.GetLanguage` | core/settings.py:41-43 | returns the `language` entry; the key must be present |
| `CoreSettings.Settings.SetLanguage` | core/settings.py:45-48 | stores the string unvalidated; `GetLanguage` then returns it; every other key is unchanged; the file holds the whole new record |
| `Interface.UpdateCooldown` | ui/interface.py:107-110 | the settings and the live session get the new cooldown together; the settings file then holds the whole new record; no other field of the session changes |

## Left out

- Sound playback (`SoundLoader`) and the OS notification in `check_recharge`. These are foreign side effects; the model only says whether the message is returned.
- Translations (`gettext`) and the message texts. Results are modelled as the values the texts format.
- `core/facts.py`: the random choice of a fact and its translation. The chosen fact is a parameter of `Crack`.
- Real JSON parsing and file I/O. A file is either absent or holds a record.
  - A malformed file raises in the source; the model has no such state.
  - A `crack_count` that is not an integer is not representable.
  - A settings value other than an integer or a string is not representable.
- Float time: `time.time()` is a float, and `int(...)` at core/logic.py:42,50 truncates the remaining seconds. With the model's integer time the subtraction is exact, so the reported wait is always at least 1 and the state is Ready exactly at `now + wait` (the `Remaining`, `Attempt` and `GetStatus` rows). With float time a wait of 0 can be reported, and Ready can come up to one second after `now + wait`.
- `CoreSettings.Settings.GetCooldown`: returns the stored value as it is. The source's annotation promises an `int`, but nothing checks it.
- The rest of `ui/interface.py` (widgets, popups, the one-second polling, the language toggle) and `app/app.py` (application bootstrap) are not part of this model.
