# check_megaraid in Dafny

A model of `check_megaraid.py`, a Nagios probe for Broadcom/LSI MegaRAID
controllers. The probe runs `storcli` a number of times and reads the text
tables it prints. From them it judges six facets of the storage:

- FC: foreign configurations on each controller;
- PDs: the physical drives;
- HS: the hot spares;
- VDs: the virtual drives;
- Enc: the enclosures;
- Batt: the battery backup units and the CacheVault modules.

It then exits with the worst Nagios state it found. Its summary line starts
with `OK`, `WA`, `CR` or `UK` and a colon, and the per-item report follows on
the later lines.

The modules follow the script's own functions:

- `Severity` holds the Nagios states and their order (`NAGIOS_ORDER`), and
  `handle_nagios_codes` as the lattice meet over that order. It also holds
  `end`, which maps a state to its prefix and exit status.
- `Sections` models `find_relevant_lines`. It is a loop over the lines of a
  `storcli` table that returns the rows between the header's two rule
  lines.
- `Controllers`, `Enclosures`, `Vds`, `Battery` and `Drives` model
  `get_controllers`, `get_enclosures`, `get_vds`, `check_cvs`/`check_bbus`
  and `get_drives`.
- `DriveState` models `get_drive_state` and `ds_get_value`.
- `Slots` models `detect_empty_slots`.
- `Format` holds the `:6.2f` temperature field.
- `Arguments` holds the checks on `--limits` and `--missingoklist`.
- `Probe` holds the main block: the per-controller rules, `handle_final_state`
  and the final `end` call.

Every loop of the script that builds a result is a `method` with
invariants, proved equal to a specification function. The one exception is
the search loop of `handle_nagios_codes` (check_megaraid.py:57-60), which is
the recursive function `FirstOf` with its own lemma. Lemmas about the
specification functions state what the probe promises: which state a facet
reaches, which ids its CR and WA lists hold, and when the probe crashes.

Some terms and modelling choices:

- `storcli` is a parameter `run: Runner`, a function from the argument list
  to the text printed. The same arguments always give the same text.
- A Python exception is `Raised`. An uncaught exception ends a run as
  `Crashed`, and the Python interpreter then exits with status 1.
- Regular expressions are replaced by predicates over the same text. Each
  predicate states the pattern it replaces.
- `Tally(code, cr, wa, long)` is the four values every checker builds: its
  state, its CR list, its WA list, and its long output.

Some faults of the script are modelled as written:

- `check_bbus` writes `OK:` in the long-output line of a battery it has just
  judged CRITICAL (check_megaraid.py:231).
- The enclosure drive-count warning is not an f-string, so it shows
  `{controller}` and `{enclosure[0]}` literally, and it ends without a
  newline (check_megaraid.py:624-625).
- The foreign-configuration line says "configurtaion"
  (check_megaraid.py:639).
- The drive-count comparison uses the third field of the enclosure tuple.
  That field is the enclosure table's `PD` column, the number of drives the
  controller reports, not its `Slots` column.

## Model

| member | source | states |
|---|---|---|
| Severity.HandleNagiosCodes | check_megaraid.py:51-61 | the combined state is one of the two given and is at least as severe as both in the order CRITICAL, WARNING, UNKNOWN, OK |
| Severity.Associative | check_megaraid.py:51-61 | combining states is associative, so a checker's fold does not depend on grouping |
| Severity.Commutative | check_megaraid.py:51-61 | combining states does not depend on argument order |
| Severity.Idempotent | check_megaraid.py:51-61 | combining a state with itself gives that state |
| Severity.OkIsIdentity | check_megaraid.py:51-61 | OK combined with any state gives that state |
| Severity.CriticalAbsorbs | check_megaraid.py:51-61 | CRITICAL combined with any state gives CRITICAL |
| Severity.WorstBounds | check_megaraid.py:22-27 | the fold of a list of states is at least as severe as every element and is either OK or one of the elements |
| Severity.WorstIsOkIff | check_megaraid.py:22-27 | the fold is OK exactly when every element is OK, and CRITICAL exactly when some element is CRITICAL |
| Severity.End | check_megaraid.py:63-70 | `end` exits with 0/1/2/3 for OK/WARNING/CRITICAL/UNKNOWN and prints the matching prefix, ": ", the message, and the long output on a new line only when there is one |
| Severity.EndStatesState | check_megaraid.py:63-70 | the printed text's prefix names exactly the state whose code is the exit status |
| Sections.FindRelevantLines | check_megaraid.py:111-129 | the loop returns exactly the section specified by `Section` over the text's lines |
| Sections.SectionShape | check_megaraid.py:111-129 | with no header line the result is empty; otherwise it is the non-rule lines after the first header, up to the second rule line after it, or to the end when there is none; no rule line is returned and every line comes from the input |
| Controllers.CountLineValue | check_megaraid.py:136-138 | a `Controller Count = n` line yields n |
| Controllers.ReportedCountValue | check_megaraid.py:135-139 | the reported count is the value on the first count line, or 0 when there is none |
| Controllers.ControllersOfIff | check_megaraid.py:131-147 | the probe goes on exactly when the count of controller-table rows equals the reported count; the ids are then the first field of each row, in order |
| Controllers.GetControllers | check_megaraid.py:131-147 | running the two storcli commands and the loops yields `ControllersOf` of their output |
| Enclosures.EnclosuresVerdict | check_megaraid.py:149-175 | raises exactly when some row is unreadable; otherwise CRITICAL exactly when some enclosure is not `OK`; the CR list holds the ids of exactly those enclosures, in row order, so it is empty exactly when the state is OK; one tuple per row is returned with the row's id |
| Enclosures.FoldIds | check_megaraid.py:165-168 | the fold appends `/cN/eM;` for exactly the enclosures whose state is not `OK`, in row order |
| Enclosures.FoldTuples | check_megaraid.py:161-172 | over readable rows the fold appends one tuple per row, in order |
| Enclosures.GetEnclosures | check_megaraid.py:149-175 | the loop over `/cN/eall show` yields `EnclosuresOf` of its output |
| Battery.CvSeverity | check_megaraid.py:187-200 | a CacheVault is CRITICAL exactly when its answer is neither Optimal nor absent, or it is absent and a battery is expected; otherwise OK |
| Battery.BbuSeverity | check_megaraid.py:217-232 | a BBU is CRITICAL exactly when its answer is unrecognised, or it is absent and a battery is expected; a controller deferred to its CacheVault is not judged here |
| Battery.CvStepEffect | check_megaraid.py:187-200 | one CacheVault combines its verdict into the state and appends `/cN;` to the CR list exactly when it fails |
| Battery.BbuStepEffect | check_megaraid.py:217-232 | one BBU answer combines its verdict into the state, appends `/cN;` exactly when it fails, and defers the controller exactly when told to use the CacheVault |
| Battery.CvFoldEffect | check_megaraid.py:177-201 | the CacheVault fold turns CRITICAL exactly when some controller's CacheVault fails, and appends the ids of exactly those controllers, in order |
| Battery.BbuFoldEffect | check_megaraid.py:203-237 | the BBU fold turns CRITICAL exactly when some battery fails, appends the ids of exactly those controllers, in order, and hands the controllers that use a CacheVault to `check_cvs` |
| Battery.BatteryVerdict | check_megaraid.py:177-237 | the battery facet is CRITICAL exactly when some controller's battery or CacheVault fails; its CR list is then the failing BBUs' ids followed by the failing CacheVaults' ids, and empty when it is OK; it never warns |
| Battery.CheckBbus | check_megaraid.py:203-237 | the loop over the controllers yields `BatteryOf` |
| Battery.CheckCvs | check_megaraid.py:177-201 | the loop over the deferred controllers yields the CacheVault fold |
| Vds.OkLineOnlyWhenClean | check_megaraid.py:251-270 | a VD gets an `OK:` line exactly when it is neither unchecked, partially degraded nor degraded |
| Vds.StepEffect | check_megaraid.py:251-270 | one VD combines its own verdict into the state, appends its id to CR when degraded and to WA once for a missing consistency check and once more when partially degraded |
| Vds.FoldEffect | check_megaraid.py:250-270 | the fold's state is the meet of the old state and the rows' states; the CR list gains the ids of exactly the degraded VDs and the WA list one id per other finding, in row order |
| Vds.VdsVerdict | check_megaraid.py:239-271 | raises exactly when a row is unreadable; otherwise the state is the worst the rows deserve, the CR list is the degraded VDs' ids and the WA list the other findings' ids, in row order, each empty exactly when there is no such finding |
| Vds.GetVds | check_megaraid.py:239-271 | the loop over `/cN/vall show` yields `VdsOf` of its output |
| DriveState.KeysDisjoint | check_megaraid.py:277-286 | no line can fill two of the eight attributes |
| DriveState.EmptyValueRaises | check_megaraid.py:287-301 | any key line with nothing but blanks after `=` raises |
| DriveState.NotAvailableLine | check_megaraid.py:287-301 | `N/A` becomes -99 of the attribute's type, or True for a flag |
| DriveState.ValueOfKeyLine | check_megaraid.py:287-301 | the value of `key = value` is the value, without surrounding blanks |
| DriveState.TemperatureLine | check_megaraid.py:287-301 | a `nC (f.ffF)` reading yields the Celsius digits, or the Fahrenheit figure when Fahrenheit is in use, and the latter reads as that decimal |
| DriveState.DocumentedTemperature | check_megaraid.py:287-301 | `Drive Temperature = 45C (113.00F)` reads as 45.0, or 113.0 in Fahrenheit |
| DriveState.ScanRaises | check_megaraid.py:303-311 | the scan raises exactly when the first key line of some attribute cannot be read |
| DriveState.ScanContents | check_megaraid.py:303-311 | an attribute is in the result exactly when some line carries its key, and its value is read from the first such line |
| DriveState.StopWhenComplete | check_megaraid.py:309-310 | once every attribute has been found, later lines change nothing |
| DriveState.DriveStateKinds | check_megaraid.py:303-311 | every attribute holds a value of its declared type |
| DriveState.ScanAttributes | check_megaraid.py:303-311 | the nested loop with its early exit yields `ScanResult` |
| DriveState.GetDriveState | check_megaraid.py:303-311 | running `/cN/eN/sN show all` and scanning yields `DriveStateOf` |
| Format.FixedReadsBack | check_megaraid.py:382 | the `:6.2f` field of a whole number of hundredths reads back as that number |
| Slots.EmptySlotsMembers | check_megaraid.py:313-338 | the result is ascending; it is empty when no slot is observed; otherwise a slot is reported exactly when it lies below the highest observed slot, is not observed, and is not part of a run of three or more unobserved slots |
| Slots.KeptIff | check_megaraid.py:322-337 | removing the blocks of more than two consecutive gaps keeps exactly the gaps outside every such run |
| Slots.DetectEmptySlots | check_megaraid.py:313-338 | the loops yield `EmptySlots` |
| Slots.GapOfThreeNotReported | check_megaraid.py:313-338 | slots 0-4 and 8-10 observed: the gap 5-7 is not reported |
| Slots.SingleGapReported | check_megaraid.py:313-338 | slots 0-1 and 3-10 observed: slot 2 is reported |
| Slots.GapOfTwoReported | check_megaraid.py:313-338 | slots 0 and 3 observed: slots 1 and 2 are reported |
| Drives.Describe | check_megaraid.py:377-384 | the description raises exactly when the manufacturer or the temperature was not found |
| Drives.Health | check_megaraid.py:385-396 | CRITICAL exactly at the critical temperature or 11 media, predictive or (unless ignored) other errors; otherwise WARNING exactly at the warning temperature, one such error or a SMART alert; otherwise OK; raises exactly where Python compares a missing count |
| Drives.ReadRole | check_megaraid.py:398-424 | the role raises exactly when the row has no state field or a DHS row has no VD field; a drive is a hot spare exactly when its state is GHS or DHS; any state not in the known list is an other role |
| Drives.RoleRules | check_megaraid.py:398-424 | the state word adds CRITICAL exactly when it is not one of the eight known words, and WARNING exactly for Cpybck, Rbld, and UGood or UGShld unless these are ignored |
| Drives.StepLine | check_megaraid.py:426-433 | a judged drive's long-output line is its state's prefix, the role tag and its description |
| Drives.FoldCode | check_megaraid.py:449 | the drives fold's state is the meet of the drives' states |
| Drives.Assess | check_megaraid.py:374-448 | a drive whose SMART flag was not found raises, as `int(pd_smart_flag)` does on None |
| Drives.MissingSmartRaises | check_megaraid.py:374-448 | a row whose drive has no S.M.A.R.T line in its `show all` text cannot be read, so get_drives raises |
| Drives.StepEffect | check_megaraid.py:361-449 | one drive raises exactly when its slot is not free; otherwise its state is combined in, its id is appended to CR exactly when CRITICAL and to WA exactly when WARNING, and its slot is no longer empty |
| Drives.FoldLists | check_megaraid.py:426-433 | the CR list gains the ids of exactly the CRITICAL drives and the WA list those of exactly the WARNING drives, in row order, and a hot spare is seen exactly when one is present |
| Drives.MissingEffect | check_megaraid.py:451-458 | missing slots warn and have their ids appended to WA, in order, unless missing drives are allowed; they never add to the CR list |
| Drives.DrivesVerdict | check_megaraid.py:340-460 | raises exactly when a row is unreadable (a missing SMART flag included), off the slot range or a repeated slot; otherwise the drive count is the number of rows, the state is the meet of the drives' states and the missing-slot warning, CR is the ids of the CRITICAL drives and WA those of the WARNING drives followed by the reported slots unless allowed, and a hot spare is reported exactly when one is present |
| Drives.AssessHealth | check_megaraid.py:385-396 | the chain of comparisons yields `Health` |
| Drives.GetDrives | check_megaraid.py:340-460 | the loop over `/cN/eN/sall show` yields `DrivesOf` of its output |
| Arguments.Configure | check_megaraid.py:558-575 | the probe stops UNKNOWN before any storcli call exactly when a given `--limits` or `--missingoklist` is malformed; otherwise only the limits of the unit in use change, and they become the given pair |
| Arguments.LimitsRoundTrip | check_megaraid.py:558-566 | every `warn:crit` pair written in decimal is accepted and read back as that pair |
| Arguments.NoColonRefused | check_megaraid.py:558-560 | a limits value without a colon is refused |
| Probe.EnclosureDrivesEffect | check_megaraid.py:611-626 | one enclosure combines into the PD facet its drives' state, made at least WARNING by a drive-count mismatch; CR grows by get_drives' CR ids, WA by get_drives' WA ids followed by `/cN/eM;` exactly when the count differs; the hot-spare flag is or-ed in |
| Probe.HotspareFoldIds | check_megaraid.py:627-630 | the HS list grows by `/cN;` for exactly the controllers without a spare when one is expected, in order |
| Probe.ForeignFoldIds | check_megaraid.py:636-640 | the FC list grows by `/cN;` for exactly the controllers whose listing lacks the "no foreign configuration" phrase, in order |
| Probe.FoldIdLists | check_megaraid.py:586-626 | over all controllers the PD CR/WA, VD CR/WA and Enc lists grow by exactly the ids the controllers' checks list, in order, drive-count ids included |
| Probe.TotalsIds | check_megaraid.py:586-640 | after all controllers, each of the seven id lists is exactly the concatenation of its reference ids |
| Probe.DisksFoldEffect | check_megaraid.py:608-626 | over a controller's enclosures the PD state becomes exactly the meet of the old state and every enclosure's state, CR and WA grow by exactly `DisksCr`/`DisksWa` (the drives' ids and the `/cN/eM;` of each enclosure whose count differs), a hot spare is seen exactly when some enclosure has one, and a drive-count mismatch warns |
| Probe.FoldCodes | check_megaraid.py:586-626 | over all controllers the PD, VD and Enc facets combine exactly the states the controllers' drives, virtual drives and enclosures deserve |
| Probe.HotspareFoldEffect | check_megaraid.py:627-635 | the HS facet warns exactly when a hot spare is expected and some controller has none, its list is empty exactly when it is OK, and it grows by exactly `LackingIds` |
| Probe.ForeignFoldEffect | check_megaraid.py:636-640 | the FC facet warns exactly when some controller's foreign listing lacks the "Couldn't find any foreign Configuration" phrase, and its list grows by exactly `ForeignIds` |
| Probe.TotalsVerdict | check_megaraid.py:586-640 | after all controllers, HS and FC are as the two folds above state, PDs, VDs and Enc are the combined states of the controllers' checks, and every facet's list holds exactly its ids: the PD, VD and Enc ids in order, the HS ids of the controllers lacking a spare, the FC ids of those with a foreign configuration |
| Probe.CheckControllers | check_megaraid.py:586-640 | the per-controller loop yields `ControllersFold` |
| Probe.FinalStatePiece | check_megaraid.py:462-482 | a facet adds nothing exactly when it is FC and OK; otherwise its piece starts with its tag and a colon, then the CR list when there is one, and ends with a blank |
| Probe.FinalFoldCode | check_megaraid.py:643-655 | the final state is the fold of the six facets' states |
| Probe.CleanFold | check_megaraid.py:643-655 | six clean facets give OK and the fixed all-clear line |
| Probe.FinalStates | check_megaraid.py:643-655 | the loop over the facets yields `FinalFold` |
| Probe.ReportVerdict | check_megaraid.py:643-666 | the exit status is the code of the worst facet, the text's prefix names that state, and the status is 0 exactly when every facet is OK |
| Probe.AllClearSummary | check_megaraid.py:643-666 | with every facet clean the probe exits 0 with `OK:`, the all-clear line and the long output |
| Probe.ProbeRuns | check_megaraid.py:584-666 | the probe crashes exactly when reading the controllers raises or a controller's checks raise; a count mismatch exits UNKNOWN |
| Probe.ProbeVerdict | check_megaraid.py:584-666 | when no check raises, the probe ends with the summary of the six facets; its status is the worst facet's code, and each facet's state is the one its checker decides |
| Probe.RunProbe | check_megaraid.py:584-666 | the main block yields `ProbeOf` |

## Left out

- Process execution: `get_output`, `check_root` and `check_storcli` are not modelled. `Popen`, the root check and the storcli path check are I/O, so `storcli` is the `run` parameter, and a failed storcli run is not modelled.
- Command-line parsing by `argparse` and `--version` are left out. The parsed options are the fields of `Config`, whose defaults are the script's defaults.
- `--missingoklist` is checked for its format and then only parsed into `MISSING_OK_LIST`, which the script never reads. The model keeps the format check and drops the set.
- Performance data are left out: `PERFORMANCE_DATA`, its flattening into the text after `|`, and the temperature and error limit strings. The model's long output ends at the `|`. The one effect of that code on the rest, `int(pd_smart_flag)` raising on a missing flag (check_megaraid.py:448), is modelled.
- Drives.Describe: the `:6.2f` field is modelled on exact decimals, rounded half away from zero. Python rounds the exact binary floating-point value half to even instead, which can differ on a tie (0.125 prints as `0.12` in Python and `0.13` here).
- Regular expressions are not modelled in general. Each one is a predicate on the text it is applied to, with IGNORECASE as ASCII case folding.
- Python exceptions are one outcome, `Raised`. The exception type and traceback are not modelled; a crash exits with status 1.
- Slots.DetectEmptySlots: `list(set(...))` is taken to list the gaps in ascending order. CPython lists a set of integers in hash-table order, which is not ascending once a value reaches the table size: with slots 0-5 and 9 observed, the gaps {6, 7, 8} are listed as [8, 6, 7], no block of three is found, and Python reports slots 6-8 where the model reports none. Modelling CPython's table layout is out of scope; the model gives the result the block detection is evidently written for.
- Text and number parsing follow ASCII: `\s` and `strip()` cover the ASCII blanks only (Python also counts \x1c-\x1f, \x85, \xa0 and other Unicode spaces); `int()` accepts an optional sign and ASCII digits (not underscores or other Unicode digits); `float()` accepts decimal notation without exponent, `inf` or `nan`; temperatures are exact decimals, so the threshold comparisons in `Health` are on exact values, not binary floats.
