# iwndebug: a Dafny model

`iwndebug` is a small FreeBSD utility that reads and changes the debug
level of the Intel `iwn` wireless driver. It takes the whole value of the
`net.wlan.devices` sysctl as the device name. It checks that this name
begins with `iwn` and builds that unit's control key from everything after
the prefix: `dev.iwn.<unit>.debug`. It reads the current level and then
handles its arguments:

- no argument writes the level back unchanged;
- a first argument beginning with `-?` lists the level names;
- a first argument beginning with `-h` prints the usage text;
- a lone argument whose first four characters spell `none`, in any case,
  resets the level to 0;
- otherwise every argument is matched, case-insensitively, against the
  table of named levels. `+name` ORs that level's bits in. `-name` XORs
  them in, which toggles them rather than clearing them.

If no argument names a level, the tool reports "Invalid input" and writes
nothing. Otherwise it writes the new level and prints `key=0x<value>`.

The model has seven modules:

- `Wrappers` holds the `Option` type: a name that may be missing, as a
  NULL pointer is in C.
- `CLib` models `strncmp`, `strncasecmp` and `strcasecmp` over the
  NUL-terminated view of a string. Its lemmas prove what each comparison
  means on strings without an embedded NUL: a prefix test, a
  case-insensitive prefix test and a case-insensitive equality.
- `Levels` models the table `iwn_levels`. The table is abstract: any list
  with the 23 names in their source order and a zero first value. The
  other values come from the driver's debug header, which is not part of
  this model, so `MakeTable` takes them as parameters.
- `Device` models the device-prefix check and the control key.
- `IwnDebug` holds the outcome of a run.
  - `Decide` is `main`'s decision table as a pure function.
  - `Run` and `ApplyArgs` are `main`'s own step-by-step form. They keep the
    early exits, the `while` loop over the arguments and the nested `for`
    loop over the table, and use the C comparisons. They are proved to
    reach exactly the outcome `Decide` gives.
- `Fold` proves what the argument fold computes.
  - One `+name` token ORs in one level's value; one `-name` token XORs it in.
  - A token that names no level changes nothing.
  - `+` is idempotent and `-` is an involution.
  - Tokens apply left to right.
  - The `found` flag is set exactly when some token names a level.
- `Properties` states the tool's behaviour as seen from the command line.

The level is a 64-bit unsigned value (`bv64`), like the source's
`uint64_t value`.

Some of the code's behaviour is less obvious, and the model follows the
code:

- The `-?` and `-h` tests compare only the first two characters of the
  first argument. They fire whatever follows (`-hello`, `-?x yz`) and
  however many arguments come after.
- A missing device and an unmatched argument list both exit with
  `EX_DATAERR` (65). The listing and the usage text both exit with
  `EX_USAGE` (64).
- `+none` and `-none` count as matches. They leave the level unchanged, so
  they write the level just read rather than failing with "Invalid input".
- The reset test is a four-character caseless prefix test: `NONE` and
  `nonesuch` reset. It applies only when there is exactly one argument.

## Model

| member | source | states |
|---|---|---|
| CLib.NCompareEqualMeaning | tools/iwn/iwndebug/main.c:162 | On strings without an embedded NUL, `strncmp`/`strncasecmp(a, b, n) == 0` holds exactly when the first `n` characters of each (fewer if a string is shorter) are equal, ignoring case when caseless |
| CLib.PrefixCompare | tools/iwn/iwndebug/main.c:175-183 | `strncmp(s, p, strlen(p)) == 0` holds exactly when `s` begins with `p` |
| CLib.CaselessPrefixCompare | tools/iwn/iwndebug/main.c:188 | `strncasecmp(s, p, strlen(p)) == 0` holds exactly when `s` is at least as long as `p` and its first `strlen(p)` characters equal `p` ignoring case |
| CLib.CaseCompareMeaning | tools/iwn/iwndebug/main.c:198-201 | `strcasecmp(a, b) == 0` holds exactly when `a` and `b` are equal ignoring case |
| Levels.MakeTable | tools/iwn/iwndebug/main.c:52-79 | The table built from the header values has the 23 level names in source order, `none` first with value 0, and each later entry carries its header value |
| Levels.TableNamesLower | tools/iwn/iwndebug/main.c:52-79 | Every name in the table is a C string already in lower case |
| Levels.NamedUnique | tools/iwn/iwndebug/main.c:52-79 | A name denotes at most one table entry, ignoring case: the names are distinct lower-case words |
| Levels.NoneFirst | tools/iwn/iwndebug/main.c:43-45 | The first entry is `none` with value 0 (`IWN_DEBUG_NONE`) |
| Device.DebugKey | tools/iwn/iwndebug/main.c:161-165 | A key exists exactly when a device name was found and it begins with `iwn`; the key begins with `dev.iwn.`, ends with `.debug` and is 11 characters longer than the device name |
| Device.KeyRoundTrip | tools/iwn/iwndebug/main.c:165 | `iwn` followed by the unit part of the key gives back the device name |
| Device.KeyInjective | tools/iwn/iwndebug/main.c:165 | Two iwn devices share a control key only if they are the same device |
| IwnDebug.ExitStatus | tools/iwn/iwndebug/main.c:161-224 | Exit status 0 exactly for a write-back, 64 exactly for the listing or the usage text, 65 exactly for a missing device or invalid input |
| IwnDebug.ScanLevels | tools/iwn/iwndebug/main.c:197-206 | The inner `for` loop as a fold over the table entries: `found`, once set, stays set, and a token that begins with neither `+` nor `-` leaves the state unchanged |
| IwnDebug.ScanArgs | tools/iwn/iwndebug/main.c:196-208 | The outer `while` loop as a left-to-right fold over the arguments: `found`, once set, stays set, and it becomes set only if some argument begins with `+` or `-` |
| IwnDebug.Decide | tools/iwn/iwndebug/main.c:161-213 | The decision table of `main`: the outcome is "no device" exactly when no control key can be built; every write goes to the device's own control key; a listing holds the 23 level names in order |
| IwnDebug.Run | tools/iwn/iwndebug/main.c:146-225 | `main`, written with the C comparisons, early returns and the argument loop, reaches exactly the outcome of the decision table `Decide` for every device name, level and argument list |
| IwnDebug.ApplyArgs | tools/iwn/iwndebug/main.c:194-208 | The nested loops leave `value` and `found` equal to the left-to-right fold of every argument over every table entry, starting from the level read and `found` false |
| IwnDebug.MatchesAsC | tools/iwn/iwndebug/main.c:198-203 | The loop's C test (`argv[narg][0]` is the sign and `strcasecmp` of the rest with the entry's name is 0) holds exactly when the token is that sign followed by the entry's name, ignoring case |
| Fold.EnableLaws | tools/iwn/iwndebug/main.c:200 | OR-ing bits in is associative, idempotent and has 0 as identity |
| Fold.ToggleLaws | tools/iwn/iwndebug/main.c:203 | XOR-ing bits in is associative, undoes itself and has 0 as identity |
| Fold.ScanPlus | tools/iwn/iwndebug/main.c:197-200 | Scanning the table with a `+` token ORs in the OR of the values of every entry it names and sets `found` exactly when some entry is named |
| Fold.ScanMinus | tools/iwn/iwndebug/main.c:197-203 | Scanning the table with a `-` token XORs in the XOR of the values of every entry it names and sets `found` exactly when some entry is named |
| Fold.ScanUnsigned | tools/iwn/iwndebug/main.c:197-206 | A token with neither sign, or an empty token, leaves value and `found` unchanged |
| Fold.ScanLevelsEffect | tools/iwn/iwndebug/main.c:197-206 | The effect of one token on the state: OR mask for `+`, XOR mask for `-`, no change otherwise; `found` is set exactly when the token matches |
| Fold.OrMaskOfPrefix | tools/iwn/iwndebug/main.c:197-200 | When a name denotes exactly one entry, the OR of the values it selects from any prefix of the table is that entry's value if the prefix holds it, 0 otherwise |
| Fold.XorMaskOfPrefix | tools/iwn/iwndebug/main.c:201-203 | When a name denotes exactly one entry, the XOR of the values it selects from any prefix of the table is that entry's value if the prefix holds it, 0 otherwise |
| Fold.MasksOfName | tools/iwn/iwndebug/main.c:197-206 | Over the whole table, both masks of the name of entry `i` are that entry's value |
| Fold.PlusToken | tools/iwn/iwndebug/main.c:198-200 | `+name`, with name equal to entry `i`'s name ignoring case, turns the state into (value OR entry's value, found) |
| Fold.MinusToken | tools/iwn/iwndebug/main.c:201-203 | `-name`, with name equal to entry `i`'s name ignoring case, turns the state into (value XOR entry's value, found) |
| Fold.UnmatchedToken | tools/iwn/iwndebug/main.c:197-206 | A token that names no entry leaves the state unchanged; unknown arguments are ignored |
| Fold.NoMasks | tools/iwn/iwndebug/main.c:197-206 | When a name denotes no entry, both its masks are 0 |
| Fold.TokenIdempotent | tools/iwn/iwndebug/main.c:198-200 | Applying any token that does not begin with `-` twice is the same as applying it once |
| Fold.MinusInvolution | tools/iwn/iwndebug/main.c:201-203 | Applying a `-` token twice restores the value it started from |
| Fold.FoundByToken | tools/iwn/iwndebug/main.c:199-202 | After a token, `found` holds exactly when it held before or the token is `+name` or `-name` for some entry: it is never cleared |
| Fold.ScanArgsAppend | tools/iwn/iwndebug/main.c:196-208 | Folding two argument lists in a row is folding their concatenation: arguments apply left to right |
| Fold.FoundIff | tools/iwn/iwndebug/main.c:196-208 | After the fold, `found` holds exactly when it held before or some argument is `+name` or `-name` for a level |
| Fold.NoMatchNoChange | tools/iwn/iwndebug/main.c:196-208 | When no argument matches a level, the fold leaves value and `found` unchanged |
| Fold.ScanAllPlus | tools/iwn/iwndebug/main.c:196-200 | When every argument begins with `+`, the fold ORs a mask that depends only on the table and the arguments into the starting value |
| Fold.ScanAllMinus | tools/iwn/iwndebug/main.c:196-203 | When every argument begins with `-`, the fold XORs a mask that depends only on the table and the arguments into the starting value |
| Properties.NoDeviceIff | tools/iwn/iwndebug/main.c:161-163 | The outcome is "no device" exactly when no device name was found or it does not begin with `iwn`, whatever the arguments |
| Properties.NoArgumentsKeepsLevel | tools/iwn/iwndebug/main.c:168-172 | With no arguments the level read is written back unchanged to `dev.iwn.<unit>.debug` |
| Properties.QueryListsLevels | tools/iwn/iwndebug/main.c:175-178 | A first argument beginning with `-?` lists the 23 level names in order, exits with 64 and writes nothing, whatever follows |
| Properties.HelpShowsUsage | tools/iwn/iwndebug/main.c:180-183 | A first argument beginning with `-h` gives the usage text, exits with 64 and writes nothing, whatever follows |
| Properties.ResetStartsWithN | tools/iwn/iwndebug/main.c:186-188 | An argument the reset test accepts begins with `n` or `N`, so no `+`/`-` token and no `-?`/`-h` argument is a reset |
| Properties.NoneResets | tools/iwn/iwndebug/main.c:186-191 | One argument whose first four characters spell `none` in any case writes 0, whatever the level was |
| Properties.SignedNoneKeepsLevel | tools/iwn/iwndebug/main.c:196-219 | `+none` or `-none`, in any case, as the only argument counts as a match and writes the level just read |
| Properties.InvalidInputIff | tools/iwn/iwndebug/main.c:194-213 | "Invalid input" comes exactly when the device is an iwn unit, the argument list reaches the loop and no argument is `+name` or `-name` for a level |
| Properties.MatchWrites | tools/iwn/iwndebug/main.c:194-219 | When the loop is reached and some argument matches, the fold's value is written to the device's key |
| Properties.PlusRunsIdempotent | tools/iwn/iwndebug/main.c:196-219 | Running again with the same `+` arguments on the level the first run wrote writes the same level |
| Properties.MinusRunsRestore | tools/iwn/iwndebug/main.c:196-219 | Running again with the same `-` arguments on the level the first run wrote writes back the original level |
| Properties.XmitRecvFold | tools/iwn/iwndebug/main.c:196-208 | Folding `+xmit +recv` ORs the `xmit` and `recv` values into the state and sets `found` |
| Properties.XmitRecvWrites | tools/iwn/iwndebug/main.c:194-219 | On any iwn device, `+xmit +recv` writes the level read OR `xmit` OR `recv` to the device's key |
| Properties.XmitRecvExample | tools/iwn/iwndebug/main.c:161-219 | On device `iwn0`, `+xmit +recv` writes `level OR xmit OR recv` to `dev.iwn.0.debug` |
| Properties.ToggleXmit | tools/iwn/iwndebug/main.c:194-219 | On any iwn device, `-xmit` writes the level read XOR `xmit` to the device's key |
| Properties.ToggleXmitExample | tools/iwn/iwndebug/main.c:194-219 | With `xmit` = 0x1, `-xmit` turns 0x3 into 0x2 and 0x2 into 0x3 on `dev.iwn.0.debug` |

## Left out

- The sysctl calls `iwn_get_interface`, `iwn_get_level` and `iwn_set_level` (main.c:85-126) are I/O. The device name (None when the lookup fails) and the level read are inputs of `Decide` and `Run`; the write-back is the `Write` outcome.
- `iwn_get_level` returns 1 when the read fails (main.c:100-101). That cannot be told apart from a real level of 1, and here it is simply part of the level input.
- IwnDebug.ExitStatus: assumes the write-back succeeds. A failing `iwn_set_level` exits with `EX_DATAERR` after the decision (main.c:216-217), and that failure is not modelled.
- `iwn_set_level` and `iwn_get_level` pass the level as a C `int`, so the 64-bit `value` is narrowed. The model keeps the full 64-bit value in the `Write` outcome.
- The value of `net.wlan.devices` is not split into device names. Like the code (main.c:107-126, 161-165), the model takes the whole value as one name. So `iwn0 ath0` gives the key `dev.iwn.0 ath0.debug`, and `ath0 iwn0` gives "no device".
- Memory handling is not modelled: `malloc`/`asprintf`/`free`, and the write of the terminator at `device[len]` one byte past the buffer (main.c:115-116).
- Output formatting is not modelled. `iwn_print_levels`, `usage` and the final `key=0x...` line (main.c:128-144, 219) are the outcomes `ListLevels` (holding the names in order), `Usage` and `Write`.
- The concrete `IWN_DEBUG_*` values come from a driver header that is not part of this model. Only `IWN_DEBUG_NONE` = 0 is known (main.c:43-45); the other 22 values are parameters of `MakeTable`.
- An empty `argv` (argc == 0) is not modelled. `Decide` and `Run` require the program name to be present.
- Strings always end at their terminating NUL: the device name and every argument are required to hold no NUL inside, as is so for C strings.
- Run: the `goto skiploop` jumps are written as early returns of the outcome.
