# Reef soundscape count tables, modelled in Dafny

This project models the plumbing of the reef-restoration acoustics scripts:
the Python code that turns recording file names such as
`ind_D2_20220830_130600.WAV` into the count tables the statistics read.
It covers:

- **Reading file names.** The treatment letter at index 4, the site in the
  second `_` field, and the `YYYYMMDD_HHMMSS` stamp at index 7. The stamp is
  read the way CPython's `strptime` reads a stamp of ASCII digits, and is shifted by a whole number
  of hours on a proleptic Gregorian calendar.
- **Count tables.** The daily coverage filter (at least 90% or 95% of the
  `1440 div duty_cycle` files a day), the group counts, the distinct-sound
  counts and the left joins in `combine_counts.py`, `shannon_index.py`,
  `phonic_richness.py` and both `phonic_richness_hourly.py` scripts.
- **Night assignment.** The own-night / previous-night / drop rule and the
  12-windows-per-minute totals of `settlement_cues.py` and
  `settlement_cuescape.py`. The night window is a parameter.
- **Temporal overlap.** The valid (site, date) pairs, the records and the
  per-treatment kernel entries of `temporal_overlap.py`. The 100-detection
  eligibility rule and the legend choice of `temporal_overlap_aggreg.py`.
- **The one-off helpers.** The timestamp fixers `fix_timestamp.py` and
  `timezone_shift.py`, and the raw-list check `check_mald_agile.py`. The age
  column `functions_add_age.py`. The renamers `rename_R_to_N.py`,
  `rename_mex.py`, `mex_site_rename.py`, `rename_indo.py` and `capitals.py`.

## Layout

- `wrappers.dfy`: `Option`.
- `text.dfy`: splitting, joining, stripping, ASCII case mapping and slicing,
  as Python's `str` does them.
- `calendar.dfy`: dates, day stepping, epoch seconds and whole-hour shifts.
- `strptime.dfy`: the `%Y%m%d_%H%M%S` parser, with its backtracking over
  one- or two-digit fields, and the zero-padded rendering.
- `tables.dfy`: `pandas` operations on rows. Filtering, the coverage filter,
  `drop_duplicates`, `groupby().size()`, distinct counts and left joins.
- `recording.dfy`: the file-name parsers and country configuration shared by
  the count scripts. It also holds the generic loops the scripts run: over a
  listing, over the sound folders, and over rows with `continue` or with a
  step that raises.
- `renaming.dfy`: a directory listing and the renames a loop makes over it.
- `night_windows.dfy`: night assignment and the night tables.
- One module for each script, named after it.

Each loop of the scripts is a `method` proved against a function of its
inputs. The properties the scripts promise are proved about those
functions as lemmas. A script that raises in the middle of a loop (a stamp
`strptime` refuses, say) is modelled as `None`, or as a run stopped at that
item.

## Model

| member | source | states |
|---|---|---|
| Recording.LabelInjective | manuscript_docs/combine_counts.py:60-71 | the five treatment labels are pairwise distinct |
| Recording.ParseTreatment | manuscript_docs/combine_counts.py:52-71 | healthy, degraded, restored or newly restored exactly when index 4 exists and is H, D, R or N; unknown for names of at most 4 characters or any other letter |
| Recording.ParseSite | manuscript_docs/combine_counts.py:73-79 | "unknown" when the name has no `_`; otherwise a field with no `_` in it |
| Recording.SiteOfName | manuscript_docs/combine_counts.py:73-79 | in `<prefix>_<site>_<rest>` the second field, the site, is read back |
| Recording.FilenamePart | manuscript_docs/combine_counts.py:123 | a name without `/` is its own file-name part |
| Recording.FilenamePartOfPath | manuscript_docs/combine_counts.py:123 | the part after the first `/` is read back from `<dir>/<name>`, whatever `/` the name itself holds |
| Recording.ExpectedDaily | manuscript_docs/combine_counts.py:93-100 | the number of whole duty cycles in 1440 minutes (`int(1440 / duty)`) |
| Recording.ConfiguredExpectations | manuscript_docs/combine_counts.py:137-151 | 720 files a day for Indonesia and 360 elsewhere; a (site, date) passes the 90% threshold exactly when it has at least 648 or 324 files |
| Recording.StampText | manuscript_docs/combine_counts.py:86 | for names of at least 22 characters, the characters `[7:22]` |
| Recording.ShiftedDateTime | manuscript_docs/shannon_index.py:70-78 | a result is a valid datetime in years 1..9999, and is the parsed stamp moved by exactly `3600 * offset` seconds |
| Recording.NoOffsetIsStrptime | manuscript_docs/combine_counts.py:86-91 | with offset 0 the shifted datetime is the `strptime` result itself: no accepted stamp overflows |
| Recording.ParseDateTime | manuscript_docs/settlement_cues.py:198 | the stamp read with no offset; a result is a valid datetime |
| Recording.ParseDate | manuscript_docs/combine_counts.py:81-91 | defined exactly when the shifted datetime is; then 8 characters, the rendered date of the shifted datetime |
| Recording.ShiftedCanonical | manuscript_docs/combine_counts.py:86-90 | the stamp rendered into a name is read back and shifted by exactly `offset` hours, `None` when that leaves years 1..9999 |
| Recording.DateWithoutOffset | manuscript_docs/combine_counts.py:81-91 | with offset 0 (Indonesia) the date of a well-formed name is its characters `[7:15]` |
| Recording.CanonicalParsed | manuscript_docs/settlement_cues.py:198 | a well-formed name parses back to its own timestamp, and characters `[7:15]` are its date |
| Recording.CanonicalDate | manuscript_docs/settlement_cues.py:119-120 | characters `[7:15]` of a canonical name are the rendered date of its timestamp |
| Recording.CanonicalHour | manuscript_docs/helpers/phonic_richness_hourly.py:81-83 | characters `[16:18]` of a well-formed name are its zero-padded hour |
| Recording.CanonicalIsOwnPart | manuscript_docs/combine_counts.py:123 | a well-formed name with no `/` in it is its own file-name part |
| Recording.OffsetMovesAtMostOneDay | manuscript_docs/combine_counts.py:33-39 | every configured offset moves the date by at most one day: back for negative offsets, forward for positive ones, not at all for Indonesia |
| Recording.CollectFolderRows | manuscript_docs/shannon_index.py:183-196 | a row comes from one inference table exactly when some detection at or above the cutoff yields it |
| Recording.CollectRows | manuscript_docs/shannon_index.py:169-196 | a row is collected exactly when a folder that is a directory, is accepted by name and holds its table has a passing detection that yields it |
| Recording.KeyedRowMember | manuscript_docs/shannon_index.py:169-205 | a (combo, sound) row is collected exactly when the folder named after the sound is read and holds a passing detection that reads as the combo |
| Recording.CollectFailurePersists | manuscript_docs/shannon_index.py:188-192 | once a row raises, the whole gather raises, whatever the later folders hold |
| Recording.GatherTable | manuscript_docs/shannon_index.py:183-196 | the loop over one table computes the rows the table specifies, `None` as soon as a row raises |
| Recording.GatherRows | manuscript_docs/shannon_index.py:169-205 | the loop over the sound folders computes the rows the listing specifies |
| Recording.ParseEach | manuscript_docs/combine_counts.py:121-129 | a result has one parsed row per item, in order; `None` only when some item does not parse |
| Recording.ParseEachMembers | manuscript_docs/combine_counts.py:121-129 | the parsed rows are exactly the parses of the listed items |
| Recording.ParseRows | manuscript_docs/combine_counts.py:121-129 | the loop appending one parsed row per listed file computes `ParseEach` |
| Recording.ParseEachFailurePersists | manuscript_docs/combine_counts.py:121-129 | a name that raises makes the whole listing raise |
| Recording.KeepEachRows | manuscript_docs/settlement_cues.py:195-218 | of a loop with `continue`: no item raised; each row is kept exactly as often as an item yields it, so nothing is invented and a skipped item leaves no row |
| Recording.KeepEachStep | manuscript_docs/settlement_cues.py:195-218 | one more item appends its row, appends nothing when skipped, or raises |
| Recording.KeepEachFailurePersists | manuscript_docs/settlement_cues.py:195-218 | an item that raises makes the whole loop raise |
| Recording.KeepRows | manuscript_docs/settlement_cues.py:195-218 | the loop with `continue` computes `KeepEach` |
| Recording.KeepEachAll | manuscript_docs/settlement_cues.py:195-218 | items that are all kept give one row each, in order |
| Recording.StoreRows | manuscript_docs/helpers/functions_add_age.py:44-50 | the loop assigning one dictionary entry per row computes `StoreEach` |
| Recording.RunEach | manuscript_docs/helpers/fix_timestamp.py:73-81 | a run completes exactly when no item raises |
| Recording.RunEachStops | manuscript_docs/helpers/fix_timestamp.py:73-81 | a run stopped by item `k` has done exactly what the items before `k` do, and nothing after |
| Recording.RunEachRows | manuscript_docs/helpers/fix_timestamp.py:73-81 | every action of a run comes from an item that asks for it |
| Recording.RunEachAll | manuscript_docs/helpers/functions_add_age.py:69-81 | items that all go through give one row each, in order |
| Recording.RunRows | manuscript_docs/helpers/fix_timestamp.py:73-81 | the loop stopping at the first item that raises computes `RunEach` |
| Tables.Filter | manuscript_docs/combine_counts.py:183 | a row filter keeps each row the predicate accepts as often as it occurs and drops every other row |
| Tables.FilterKeepsOrder | manuscript_docs/combine_counts.py:183 | the kept rows are a subsequence of the table: order is kept |
| Tables.FilterRows | manuscript_docs/combine_counts.py:183 | the loop over the rows computes `Filter` |
| Tables.MapRows | manuscript_docs/settlement_cues.py:114-123 | the loop builds one row per item, in order, each the function of its item |
| Tables.CoverageFilter | manuscript_docs/combine_counts.py:134-154 | a row survives as often as it occurs exactly when its (site, date) group has `den * n >= num * expected`, and rows of failing groups are all gone |
| Tables.CoveredDistinct | manuscript_docs/combine_counts.py:134-158 | after `drop_duplicates` no row repeats, and a row is present exactly when it was in the table and its group passes coverage |
| Tables.Dedup | manuscript_docs/combine_counts.py:158 | `drop_duplicates` leaves no repeated row, the same set of rows, and no more rows |
| Tables.GroupSizes | manuscript_docs/combine_counts.py:197-201 | `groupby().size()`: the keys are those that occur, each with its number of occurrences, at least 1 |
| Tables.StoreKeys | manuscript_docs/helpers/functions_add_age.py:44-50 | a dictionary filled from pairs has exactly the keys of the pairs |
| Tables.StoreLast | manuscript_docs/helpers/functions_add_age.py:44-50 | a key's value is that of its last pair: later duplicates overwrite |
| Tables.StoreValue | manuscript_docs/helpers/functions_add_age.py:44-50 | every stored entry is one of the pairs |
| Tables.ValueSets | manuscript_docs/calc_ecofunctions/phonic_richness.py:155-160 | per key that occurs, the set of values seen with it |
| Tables.DistinctCounts | manuscript_docs/calc_ecofunctions/phonic_richness.py:155-160 | `nunique` per key: the keys that occur, each with the number of distinct values seen with it, between 1 and the number of distinct values overall |
| Tables.DistinctCountsMonotone | manuscript_docs/calc_ecofunctions/phonic_richness.py:155-160 | adding a row never lowers a key's distinct count and adds no key but its own |
| Tables.DistinctCountsRepeat | manuscript_docs/calc_ecofunctions/phonic_richness.py:155-160 | a row seen before leaves every distinct count unchanged |
| Tables.LeftJoin | manuscript_docs/combine_counts.py:219-225 | one row per left key, in order, with the table's value for that key or the fill value |
| Tables.LeftJoinKeys | manuscript_docs/combine_counts.py:219-225 | the joined keys are exactly the left keys, so table entries for other keys are dropped, and duplicate-free left keys give duplicate-free rows |
| CombineCounts.ComboOf | manuscript_docs/combine_counts.py:122-129 | defined exactly when the date parses; then the country, the site, the treatment and the shifted date of the file-name part |
| CombineCounts.RawCombos | manuscript_docs/combine_counts.py:102-160 | a missing list gives no combos; a result has no duplicate rows |
| CombineCounts.RawCombosFailure | manuscript_docs/combine_counts.py:121-129 | the list raises exactly when one of its names does not parse |
| CombineCounts.ParsedMembers | manuscript_docs/combine_counts.py:121-129 | the parsed rows are exactly the combos of the listed files |
| CombineCounts.RawCombosMembers | manuscript_docs/combine_counts.py:134-158 | a combo is kept exactly when a listed file reads as it and its (site, date) has at least 90% of the expected files |
| CombineCounts.LoadRawFileList | manuscript_docs/combine_counts.py:102-160 | the loop, coverage filter and de-duplication compute `RawCombos` |
| CombineCounts.InferenceCounts | manuscript_docs/combine_counts.py:163-206 | a missing table gives no counts; every count is a positive multiple of the duty cycle |
| CombineCounts.CountedCombos | manuscript_docs/combine_counts.py:183-204 | a combo is counted exactly when a detection at or above the cutoff reads as it, and its count is the duty cycle times the number of such detections |
| CombineCounts.LoadInferenceCounts | manuscript_docs/combine_counts.py:163-206 | the loop over the passing rows and the group count compute `InferenceCounts` |
| CombineCounts.ProcessCountry | manuscript_docs/combine_counts.py:209-227 | the country's table exists exactly when neither the raw list nor the inference table raises |
| CombineCounts.ProcessCountryRows | manuscript_docs/combine_counts.py:219-225 | the table is the coverage combos left-joined with the counts, 0 where there are none; every row's combo is a coverage combo, no combo repeats, and every count is a multiple of the duty cycle |
| CombineCounts.CountPositiveIffDetected | manuscript_docs/combine_counts.py:219-225 | a row's count is positive exactly when a passing detection reads as its combo |
| CombineCounts.AllCountriesRows | manuscript_docs/combine_counts.py:237-240 | the combined table holds exactly the rows of the countries' own tables |
| CombineCounts.CombineCountries | manuscript_docs/combine_counts.py:237-240 | the loop concatenating the per-country tables computes `AllCountries` |
| CombineCounts.AllCountriesFailurePersists | manuscript_docs/combine_counts.py:237-240 | a country that raises makes the whole run raise |
| ShannonIndex.SoundCounts | manuscript_docs/shannon_index.py:149-211 | no `agile_outputs` gives no counts; every count is at least 1 |
| ShannonIndex.SoundRowMember | manuscript_docs/shannon_index.py:169-196 | a (combo, sound) row is gathered exactly when the sound's folder is a directory with its table and a passing detection reads as the combo |
| ShannonIndex.SoundCountKeys | manuscript_docs/shannon_index.py:169-208 | a (combo, sound) is counted exactly when such a detection exists; folders without the table contribute nothing |
| ShannonIndex.GatherSoundCounts | manuscript_docs/shannon_index.py:149-211 | the loop over the folders and the group count compute `SoundCounts` |
| ShannonIndex.Total | manuscript_docs/shannon_index.py:218 | a group's total is 0 exactly when all its counts are 0 |
| ShannonIndex.ComputeShannon | manuscript_docs/shannon_index.py:213-222 | the index is the zero of the `total == 0` branch exactly when every count of the group is 0 |
| ShannonIndex.GroupOf | manuscript_docs/shannon_index.py:248-252 | a combo's group holds exactly its sounds' counts |
| ShannonIndex.ProcessCountryShannon | manuscript_docs/shannon_index.py:224-263 | a table exists exactly when neither the raw list nor the gather raises |
| ShannonIndex.ShannonRows | manuscript_docs/shannon_index.py:235-261 | one row per coverage combo, in order; the index takes the `total == 0` (zero) branch exactly when no sound of the combo was detected, and otherwise it is the entropy of the combo's counts |
| ShannonIndex.ShannonValueZero | manuscript_docs/shannon_index.py:213-261 | a combo's index evaluates to 0.0 exactly when at most one of its sounds was detected: none (the zero branch) or one, whose share is 1 |
| ShannonIndex.NoSoundsAllZero | manuscript_docs/shannon_index.py:235-245 | without any detected sound every coverage combo gets index zero |
| PhonicRichness.SnapOnly | manuscript_docs/calc_ecofunctions/phonic_richness.py:93-95 | the folder skip compares the lower-cased name with `snap`: every casing of `snap` is skipped, longer names such as `snaps` are not |
| PhonicRichness.Presence | manuscript_docs/calc_ecofunctions/phonic_richness.py:80-82 | no `agile_outputs` directory gives an empty presence table |
| PhonicRichness.PresenceSource | manuscript_docs/calc_ecofunctions/phonic_richness.py:85-121 | every (combo, sound) row comes from a non-`snap` directory of that name with a table, and from a detection at or above the cutoff whose file name reads as that combo |
| PhonicRichness.GatherSoundPresence | manuscript_docs/calc_ecofunctions/phonic_richness.py:59-128 | the loop over the sound folders computes `Presence` |
| PhonicRichness.RichnessCounts | manuscript_docs/calc_ecofunctions/phonic_richness.py:155-160 | one count per combo that has a sound, equal to the number of its distinct sounds, and at least 1 |
| PhonicRichness.ProcessCountryRichness | manuscript_docs/calc_ecofunctions/phonic_richness.py:131-171 | a table exists exactly when neither the raw list nor the gather raises |
| PhonicRichness.NamesBound | manuscript_docs/calc_ecofunctions/phonic_richness.py:85 | a listing has no more distinct names than entries |
| PhonicRichness.SoundsBound | manuscript_docs/calc_ecofunctions/phonic_richness.py:85-121 | a combo never has more distinct sounds than there are sound folders |
| PhonicRichness.RichnessBounds | manuscript_docs/calc_ecofunctions/phonic_richness.py:147-169 | row `i` is coverage combo `i` with its number of distinct sounds, at most the number of folders, and zero exactly when no sound was detected for it |
| PhonicRichness.RichnessMonotone | manuscript_docs/calc_ecofunctions/phonic_richness.py:155-160 | one more presence row never lowers a combo's richness nor drops a combo |
| PhonicRichness.RichnessRepeat | manuscript_docs/calc_ecofunctions/phonic_richness.py:155-160 | a repeated presence row leaves every richness unchanged (`nunique`) |
| PhonicRichnessHourly.HourComboOf | manuscript_docs/phonic_richness_hourly.py:81-89 | a row's combo exists exactly when the shifted stamp parses; its hour is the shifted hour (below 24), its date the shifted date, and site, treatment and country are read from the name |
| PhonicRichnessHourly.HourWithoutOffset | manuscript_docs/helpers/phonic_richness_hourly.py:39-46 | without an offset, the date and hour of a canonical name are its own characters `[7:15]` and `[16:18]` |
| PhonicRichnessHourly.HourlyCoverage | manuscript_docs/phonic_richness_hourly.py:58-128 | no raw list gives no rows; the kept rows have no duplicates |
| PhonicRichnessHourly.HourlyMembers | manuscript_docs/phonic_richness_hourly.py:95-127 | an hourly combo is kept exactly when some file reads as it and its (site, date) day has enough files |
| PhonicRichnessHourly.DayDecidesHours | manuscript_docs/phonic_richness_hourly.py:95-125 | two hours of the same site and day are kept or dropped together, since coverage counts whole days |
| PhonicRichnessHourly.LoadRawFileListHourly | manuscript_docs/phonic_richness_hourly.py:58-128 | the loop over the raw list computes `HourlyCoverage` |
| PhonicRichnessHourly.Presence | manuscript_docs/phonic_richness_hourly.py:145-147 | no `agile_outputs` directory gives an empty presence table |
| PhonicRichnessHourly.PresenceSource | manuscript_docs/phonic_richness_hourly.py:149-186 | every (hour combo, sound) row comes from a non-`snap` directory of that name with a table, and from a detection at or above the cutoff whose file name reads as that hour combo |
| PhonicRichnessHourly.GatherSoundPresenceHourly | manuscript_docs/phonic_richness_hourly.py:130-192 | the loop over the sound folders computes `Presence` |
| PhonicRichnessHourly.HourlyCounts | manuscript_docs/phonic_richness_hourly.py:211-217 | one count per hour combo that has a sound, equal to its number of distinct sounds, and at least 1 |
| PhonicRichnessHourly.ProcessCountryHourly | manuscript_docs/phonic_richness_hourly.py:194-226 | a table exists exactly when neither the raw list nor the gather raises |
| PhonicRichnessHourly.HourlyRows | manuscript_docs/phonic_richness_hourly.py:204-224 | one row per coverage hour combo, in order, with its number of distinct sounds, zero exactly when none was detected |
| NightWindows.NightOf | manuscript_docs/settlement_cues.py:198-211 | a timestamp goes to its own date exactly when its own night's window holds it, to the previous date exactly when only that night's window holds it, and is dropped exactly when neither does; a kept night's window always holds the timestamp |
| NightWindows.NightOfExact | manuscript_docs/settlement_cues.py:152-179 | with windows from one evening to the next morning that do not overlap, a timestamp in the night of `n` is assigned to `n` and to no other night |
| NightWindows.SnapsOnly | manuscript_docs/settlement_cues.py:239-241 | the night scripts skip `snaps` in any casing, but do read `snap` and `snaps_old` |
| NightWindows.WindowTotals | manuscript_docs/settlement_cues.py:213-221 | one total per night key with a minute file, 12 windows per such file, so at least 12 |
| NightWindows.LogGuarded | manuscript_docs/settlement_cuescape.py:349-351 | the guarded log is the zero branch exactly when the count is 0, and otherwise the log of the count itself |
| NightWindows.MergeCounts | manuscript_docs/settlement_cues.py:300-303 | the left merge keeps exactly the keys of the totals, with their totals, and the detection sum or 0 |
| NightWindows.MergedRows | manuscript_docs/settlement_cuescape.py:322-351 | merging the detection sums onto the window totals: one row per night with a minute file, its detections counted, 0 exactly when there are none; totals are positive multiples of 12, so the log is never guarded |
| NightWindows.MergedTotals | manuscript_docs/settlement_cuescape.py:330-351 | the merged rows are those of the totals, each a positive multiple of 12 |
| NightWindows.MergedCounts | manuscript_docs/settlement_cuescape.py:322-337 | each merged row counts the detections of its key, 0 exactly when there is none |
| SettlementCues.ListedFileOf | manuscript_docs/settlement_cues.py:114-121 | a listed row keeps the full listed path, and its date is characters `[7:15]` of the file-name part |
| SettlementCues.ListedFiles | manuscript_docs/settlement_cues.py:114-121 | one row per listed file, in order |
| SettlementCues.ReadListedFiles | manuscript_docs/settlement_cues.py:114-121 | the loop over the raw list computes `ListedFiles` |
| SettlementCues.RawFiles | manuscript_docs/settlement_cues.py:93-150 | no raw list gives no rows; the kept rows have no duplicates |
| SettlementCues.RawFilesMembers | manuscript_docs/settlement_cues.py:126-148 | a row is kept exactly when some listed file gives it and its (site, date) has at least 90% of the expected files |
| SettlementCues.LoadRawFileListSimple | manuscript_docs/settlement_cues.py:93-150 | the loop and the coverage filter compute `RawFiles` |
| SettlementCues.ListedDateIsParsedDate | manuscript_docs/settlement_cues.py:120 | for a canonical name, the date read from characters `[7:15]` is the date of the parsed timestamp |
| SettlementCues.AssignMinute | manuscript_docs/settlement_cues.py:195-218 | a minute file raises exactly when its stamp or a window raises; a kept one carries the country, the listed site and an 8-character night |
| SettlementCues.NightTotals | manuscript_docs/settlement_cues.py:182-222 | every night total is at least 12 |
| SettlementCues.NightTotalsMeaning | manuscript_docs/settlement_cues.py:195-221 | the totals are the window totals of the assigned minutes: a night key has a total exactly when some kept file is assigned to it, and the total is 12 times the number of such files |
| SettlementCues.GatherNightTotalWindows | manuscript_docs/settlement_cues.py:182-222 | the loop and the group sum compute `NightTotals` |
| SettlementCues.DetectionNight | manuscript_docs/settlement_cues.py:258-275 | a kept detection carries the country and the site read from its file name |
| SettlementCues.Detections | manuscript_docs/settlement_cues.py:232-235 | no `agile_outputs` directory gives no detections |
| SettlementCues.DetectionSource | manuscript_docs/settlement_cues.py:237-275 | a night key is detected exactly when a directory other than `snaps`, with its table, has a detection at or above the cutoff assigned to that night |
| SettlementCues.GatherNightInferences | manuscript_docs/settlement_cues.py:224-278 | the loops over the folders and their rows compute `Detections` |
| SettlementCues.ProcessCountry | manuscript_docs/settlement_cues.py:280-311 | no night totals give an empty table; a table has exactly the keys of the totals |
| SettlementCues.ProcessCountryRows | manuscript_docs/settlement_cues.py:287-307 | each night with a minute file has the number of its detections, 0 exactly when there is none, over a total of 12 windows per minute file |
| SettlementCuescape.ListedFileOf | manuscript_docs/settlement_cuescape.py:120-127 | a listed row keeps the full listed path, and its date is characters `[7:15]` of the file-name part |
| SettlementCuescape.ListedFiles | manuscript_docs/settlement_cuescape.py:120-127 | one row per listed file, in order |
| SettlementCuescape.ReadListedFiles | manuscript_docs/settlement_cuescape.py:120-127 | the loop over the raw list computes `ListedFiles` |
| SettlementCuescape.RawFiles | manuscript_docs/settlement_cuescape.py:97-156 | no raw list gives no rows; the kept rows have no duplicates |
| SettlementCuescape.RawFilesMembers | manuscript_docs/settlement_cuescape.py:132-154 | a row is kept exactly when some listed file gives it and its (site, date) has at least 90% of the expected files |
| SettlementCuescape.LoadRawFileListSimple | manuscript_docs/settlement_cuescape.py:97-156 | the loop and the coverage filter compute `RawFiles` |
| SettlementCuescape.ListedDateIsParsedDate | manuscript_docs/settlement_cuescape.py:126 | for a canonical name, the date read from characters `[7:15]` is the date of the parsed timestamp |
| SettlementCuescape.AssignMinute | manuscript_docs/settlement_cuescape.py:201-226 | a minute file raises exactly when its stamp or a window raises; a kept one carries the country, the listed site and treatment and an 8-character night |
| SettlementCuescape.TotalsReadTheListedPath | manuscript_docs/settlement_cuescape.py:205 | the totals parse the whole listed path: a path with a folder in front raises there, although its file-name part parses |
| SettlementCuescape.NightTotals | manuscript_docs/settlement_cuescape.py:188-237 | every night total is at least 12 |
| SettlementCuescape.NightTotalsMeaning | manuscript_docs/settlement_cuescape.py:201-236 | the totals are the window totals of the assigned minutes: a key has a total exactly when some kept file is assigned to it, and the total is 12 times the number of such files |
| SettlementCuescape.GatherNightTotalWindows | manuscript_docs/settlement_cuescape.py:188-237 | the loop and the group sum compute `NightTotals` |
| SettlementCuescape.DetectionNight | manuscript_docs/settlement_cuescape.py:275-294 | a kept detection carries the country and the site and treatment read from its file name |
| SettlementCuescape.Detections | manuscript_docs/settlement_cuescape.py:250-253 | no `agile_outputs` directory gives no detections |
| SettlementCuescape.DetectionSource | manuscript_docs/settlement_cuescape.py:255-294 | a night key is detected exactly when a directory other than `snaps`, with its table, has a detection at or above the cutoff assigned to that night |
| SettlementCuescape.GatherNightInferences | manuscript_docs/settlement_cuescape.py:240-300 | the loops over the folders and their rows compute `Detections` |
| SettlementCuescape.ProcessCountry | manuscript_docs/settlement_cuescape.py:303-360 | no night totals give an empty table; a table has exactly the keys of the totals |
| SettlementCuescape.ProcessCountryRows | manuscript_docs/settlement_cuescape.py:313-351 | each night key with a minute file has `count` equal to its detections, 0 exactly when there is none, `max_poss_count` 12 per minute file, and an unguarded log |
| TemporalOverlap.SiteDateOf | manuscript_docs/calc_ecofunctions/temporal_overlap.py:69-71 | a listed file gives a (site, date) pair exactly when its date parses; the site is read from the file-name part and the date has 8 characters |
| TemporalOverlap.ValidSiteDates | manuscript_docs/calc_ecofunctions/temporal_overlap.py:47-80 | no raw list gives the empty set; the function raises only when some listed file's date does not parse |
| TemporalOverlap.ValidSiteDatesMeaning | manuscript_docs/calc_ecofunctions/temporal_overlap.py:69-78 | a (site, date) pair is valid exactly when it occurs in the list at least 95% of the expected daily number of times |
| TemporalOverlap.ConfiguredOverlapThreshold | manuscript_docs/calc_ecofunctions/temporal_overlap.py:75-77 | with the configured duty cycles, 95% coverage means at least 684 files a day in Indonesia and 342 elsewhere |
| TemporalOverlap.RecordOf | manuscript_docs/calc_ecofunctions/temporal_overlap.py:127-142 | a detection raises exactly when its date does not parse, gives a record exactly when its (site, date) is valid, and the record holds the treatment read from the name and the second of the day of its stamp (below 86400) |
| TemporalOverlap.Passing | manuscript_docs/calc_ecofunctions/temporal_overlap.py:120-121 | the kept detections are exactly those with logit at least 1.0 |
| TemporalOverlap.SoundRecords | manuscript_docs/calc_ecofunctions/temporal_overlap.py:102-146 | a sound gives records only from a directory with its table, and never an empty list |
| TemporalOverlap.SoundRecordsSource | manuscript_docs/calc_ecofunctions/temporal_overlap.py:120-142 | a record is in a sound's list exactly when a passing detection of a valid (site, date) gives it |
| TemporalOverlap.ReadSoundRecords | manuscript_docs/calc_ecofunctions/temporal_overlap.py:102-146 | the loop over a sound's detections computes `SoundRecords` |
| TemporalOverlap.TimesOf | manuscript_docs/calc_ecofunctions/temporal_overlap.py:158 | a treatment's times hold one entry per record of that treatment, and a time is among them exactly when such a record has it |
| TemporalOverlap.Kernels | manuscript_docs/calc_ecofunctions/temporal_overlap.py:157-169 | one kernel per treatment in order; a kernel is missing exactly when the treatment has no record, and otherwise its sample is that treatment's times |
| TemporalOverlap.ProcessSound | manuscript_docs/calc_ecofunctions/temporal_overlap.py:102-169 | a sound raises exactly when reading its records raises; a kept sound has its records and four kernels |
| TemporalOverlap.ProcessCountry | manuscript_docs/calc_ecofunctions/temporal_overlap.py:189-198 | a country without valid (site, date) pairs or without `agile_outputs` gives no sounds |
| TemporalOverlap.ProcessCountrySounds | manuscript_docs/calc_ecofunctions/temporal_overlap.py:82-198 | every plotted sound comes from a folder whose records it carries, has at least one record, and has kernels for the four treatments in legend order |
| TemporalOverlap.SoundsOfFolders | manuscript_docs/calc_ecofunctions/temporal_overlap.py:102-169 | the same, for the sounds the folder loop keeps |
| TemporalOverlap.ProcessSoundCountry | manuscript_docs/calc_ecofunctions/temporal_overlap.py:82-187 | the loop over the sound folders keeps each sound that `ProcessSound` keeps, in listing order |
| TemporalOverlapAggreg.CountOf | manuscript_docs/calc_ecofunctions/temporal_overlap_aggreg.py:140-142 | a treatment's detection count is the number of its times, 0 exactly when it has no record |
| TemporalOverlapAggreg.PlotTreatments | manuscript_docs/calc_ecofunctions/temporal_overlap_aggreg.py:143-155 | no plot exactly when neither group qualifies; a plot lists treatments in legend order, always healthy and degraded, restored exactly when group 1 qualifies and newly restored exactly when group 2 does |
| TemporalOverlapAggreg.AggregSound | manuscript_docs/calc_ecofunctions/temporal_overlap_aggreg.py:97-180 | a sound raises exactly when reading its records raises |
| TemporalOverlapAggreg.AggregPlotMeaning | manuscript_docs/calc_ecofunctions/temporal_overlap_aggreg.py:140-168 | a plotted sound has its folder's name, every plotted treatment has at least 100 detections, all four are plotted exactly when both groups qualify, and each plotted treatment's kernel sample is its times |
| TemporalOverlapAggreg.CountedKernels | manuscript_docs/calc_ecofunctions/temporal_overlap_aggreg.py:160-171 | each chosen treatment's kernel sample is its times |
| TemporalOverlapAggreg.PlotCounts | manuscript_docs/calc_ecofunctions/temporal_overlap_aggreg.py:142-155 | the chosen treatments all have at least 100 detections, and they are all four exactly when both groups qualify |
| TemporalOverlapAggreg.AggregSkipped | manuscript_docs/calc_ecofunctions/temporal_overlap_aggreg.py:143-147 | a sound with fewer than 100 detections in some treatment of each group is skipped |
| TemporalOverlapAggreg.ProcessCountry | manuscript_docs/calc_ecofunctions/temporal_overlap_aggreg.py:182-191 | a country without valid (site, date) pairs or without `agile_outputs` gives no plots |
| TemporalOverlapAggreg.AggregSoundCountry | manuscript_docs/calc_ecofunctions/temporal_overlap_aggreg.py:75-180 | the loop over the sound folders keeps each plot that `AggregSound` keeps, in listing order |
| TemporalOverlapAggreg.AggregOne | manuscript_docs/calc_ecofunctions/temporal_overlap_aggreg.py:119-155 | one folder's records, counts and treatment choice compute `AggregSound` |
| FixTimestamp.ClockOffset | manuscript_docs/helpers/fix_timestamp.py:14-26 | exactly the four short codes have an offset, each between -10 and 7 hours |
| FixTimestamp.CorrectTimestamp | manuscript_docs/helpers/fix_timestamp.py:29-67 | a name without four `_` fields, with an unknown code or with a stamp `strptime` refuses comes back unchanged; the function raises only for a known code with a parsed stamp |
| Strptime.StampFieldsPlain | manuscript_docs/helpers/fix_timestamp.py:62-63 | a rendered date or time holds no `_`, `.` or `/`, so it stays one field of the name |
| FixTimestamp.CorrectCanonical | manuscript_docs/helpers/fix_timestamp.py:34-66 | a name `<code>_<site>_<date>_<time><ext>` is rebuilt with the stamp moved back by the code's offset, keeping prefix, site and extension; it raises only when the moved date leaves the years 1 to 9999 |
| FixTimestamp.StampedNameParts | manuscript_docs/helpers/fix_timestamp.py:34-35 | such a name splits into its stem and extension, and the stem into prefix, site, date and time |
| FixTimestamp.CorrectOfFields | manuscript_docs/helpers/fix_timestamp.py:41-66 | for any name whose fields parse, the result is the name rebuilt from the moved stamp, or a raise when the moved date is out of range |
| FixTimestamp.CorrectTimestampUndone | manuscript_docs/helpers/fix_timestamp.py:58-59 | a corrected stamp moved forward by the offset again is the original stamp |
| FixTimestamp.MaldivesMovesLater | manuscript_docs/helpers/fix_timestamp.py:17 | a `mal` recording's stamp moves 4 hours later, 4 times 3600 seconds on the epoch scale |
| FixTimestamp.RenameStep | manuscript_docs/helpers/fix_timestamp.py:74-81 | a name is renamed exactly when it ends in `.wav` in any case and its corrected name differs; the step raises exactly when correcting a `.wav` name raises |
| FixTimestamp.FixFolder | manuscript_docs/helpers/fix_timestamp.py:73-81 | the loop over the listing makes the renames of `RunEach`, stopping at the first raise; each rename is of a listed `.wav` name to its different corrected name |
| TimezoneShift.WavFiles | setup/prep_data/timezone_shift.py:18 | the kept names are exactly the listed names ending in `.wav` in any case, in listing order |
| TimezoneShift.AdjustedName | setup/prep_data/timezone_shift.py:22-35 | a new name always ends in lower-case `.wav`; a name with fewer than four `_` fields raises |
| TimezoneShift.LayoutFields | setup/prep_data/timezone_shift.py:22-25 | a name `<a>_<b>_<date>_<time><ext>` splits into those four fields, and the time is read back before the first `.` |
| TimezoneShift.FieldsOf | setup/prep_data/timezone_shift.py:22-25 | the four fields of a name built from plain parts are those parts |
| TimezoneShift.AdjustedLayout | setup/prep_data/timezone_shift.py:22-35 | such a name gets the stamp moved by the hour difference and the extension `.wav`, or raises when the moved date leaves the years 1 to 9999 |
| TimezoneShift.AdjustedUndone | setup/prep_data/timezone_shift.py:26-35 | moving by the opposite difference gives the original name back, with `.wav` as its extension |
| TimezoneShift.AdjustedBack | setup/prep_data/timezone_shift.py:26-35 | the adjusted name of a shifted stamp is the name of the stamp it is shifted to |
| TimezoneShift.ShiftStep | setup/prep_data/timezone_shift.py:21-40 | a file raises exactly when its new name raises, and otherwise is renamed to it |
| TimezoneShift.AdjustTimestamps | setup/prep_data/timezone_shift.py:16-40 | the loop over the `.wav` files makes the renames of `RunEach`, stopping at the first raise; every rename is of a listed `.wav` name to its adjusted name |
| CheckMaldAgile.RawFileSet | manuscript_docs/helpers/check_mald_agile.py:18-26 | the raw list raises exactly when a row lacks `filename`; otherwise the set holds exactly the stripped file names of its rows |
| CheckMaldAgile.FileNamesStep | manuscript_docs/helpers/check_mald_agile.py:23-25 | reading one more row adds exactly its stripped file name to the set |
| CheckMaldAgile.LoadRawFileSet | manuscript_docs/helpers/check_mald_agile.py:18-26 | the loop over the rows computes `RawFileSet` |
| CheckMaldAgile.NormalisedBothWays | manuscript_docs/helpers/check_mald_agile.py:43-45 | a stripped name and the same name behind `raw_audio/` are looked up as the same name; a row without `filename` is looked up as the empty name |
| CheckMaldAgile.FolderRewriteMeaning | manuscript_docs/helpers/check_mald_agile.py:40-56 | the rewritten table keeps rows in their order, keeps every copy of a row whose looked-up name is in the raw list and no copy of any other row, and the excluded count is the number of dropped rows |
| CheckMaldAgile.ProcessFolder | manuscript_docs/helpers/check_mald_agile.py:28-57 | a folder without the old table is skipped; otherwise the loop computes `FolderRewrite` |
| CheckMaldAgile.RewritesMeaning | manuscript_docs/helpers/check_mald_agile.py:63-66 | a table is rewritten exactly for each listed directory that has the old table, from that table |
| CheckMaldAgile.CheckFolders | manuscript_docs/helpers/check_mald_agile.py:59-66 | the loop over the listing computes `Rewrites` |
| AddAge.MappingEntry | manuscript_docs/helpers/functions_add_age.py:47-49 | a mapping row raises exactly when it lacks `country`, `site` or `age`, and is never skipped |
| AddAge.AgeMappingDefined | manuscript_docs/helpers/functions_add_age.py:44-50 | loading raises exactly when some row lacks one of the three columns |
| AddAge.AgeMappingKeys | manuscript_docs/helpers/functions_add_age.py:47-49 | the keys are exactly the lower-cased, stripped (country, site) pairs of the rows |
| AddAge.AgeMappingLast | manuscript_docs/helpers/functions_add_age.py:47-49 | a key maps to the stripped age of its last row |
| AddAge.LoadAgeMapping | manuscript_docs/helpers/functions_add_age.py:35-50 | the loop over the rows computes `AgeMapping` |
| AddAge.AgeOf | manuscript_docs/helpers/functions_add_age.py:70-80 | a row raises exactly when it lacks `site`, or has an `R`/`N` site and lacks `country`; any other site gets `NA` |
| AddAge.AgeLookedUp | manuscript_docs/helpers/functions_add_age.py:71-77 | an `R`/`N` site gets the mapped age of its lower-cased (country, site) key, or `NA` when the key is missing |
| AddAge.AgeFromMapping | manuscript_docs/helpers/functions_add_age.py:44-77 | such a site gets the stripped age of the last mapping row with its key |
| AddAge.AgeMissing | manuscript_docs/helpers/functions_add_age.py:73-77 | such a site without a mapping row gets `NA` |
| AddAge.LowerCaseSiteNotLookedUp | manuscript_docs/helpers/functions_add_age.py:71 | the `R`/`N` test is case-sensitive: a site starting with `r` or `n` gets `NA` whatever the mapping holds |
| AddAge.AgeStep | manuscript_docs/helpers/functions_add_age.py:69-81 | a row raises exactly when its age does, and otherwise is written with its age set and never skipped |
| AddAge.AgedTableOf | manuscript_docs/helpers/functions_add_age.py:64-81 | the header is the input's with `age` added; the file is finished exactly when no row raises, and then holds one row per input row |
| AddAge.AgedRowsMeaning | manuscript_docs/helpers/functions_add_age.py:69-81 | a finished file's row `i` is input row `i` with `age` set to its age and every other cell unchanged |
| AddAge.AddAgeColumn | manuscript_docs/helpers/functions_add_age.py:53-82 | the loop over the rows computes `AgedTableOf` |
| AddAge.AgedName | manuscript_docs/helpers/functions_add_age.py:63 | the output name always ends in `_age.csv` |
| AddAge.AgedNameOf | manuscript_docs/helpers/functions_add_age.py:63 | the output for `<stem>.csv` is `<stem>_age.csv` |
| Renaming.RenamesMeaning | manuscript_docs/helpers/mex_site_rename.py:16-28 | a rename is made exactly for each listed entry its rule renames, to the rule's new name |
| Renaming.RenameEach | manuscript_docs/helpers/rename_R_to_N.py:15-21 | the loop over a listing makes the renames of `Renames`, in listing order |
| Renaming.Renamed | manuscript_docs/helpers/mex_site_rename.py:31 | the listing after a pass has one entry per entry before it, each under its new name |
| Renaming.RenamesSettled | manuscript_docs/helpers/rename_indo.py:50-52 | when a rule never renames a name it produced, a second run over the renamed listing renames nothing |
| RenameRToN.NewName | manuscript_docs/helpers/rename_R_to_N.py:16-18 | an `R` at index 4 becomes `N` and every other character is kept; other names are unchanged; the result has no `R` at index 4 |
| RenameRToN.NewNameIdempotent | manuscript_docs/helpers/rename_R_to_N.py:16-18 | renaming twice is renaming once |
| RenameRToN.Rule | manuscript_docs/helpers/rename_R_to_N.py:14-18 | an entry is renamed exactly when its name ends in upper-case `.WAV` and has `R` at index 4, and the new name still ends in `.WAV` |
| RenameRToN.RenameFiles | manuscript_docs/helpers/rename_R_to_N.py:12-21 | the loop renames, in listing order, exactly the matching `.WAV` names, each to `NewName` |
| RenameRToN.RenameFilesSettled | manuscript_docs/helpers/rename_R_to_N.py:12-21 | a second run over the renamed folder renames nothing |
| RenameMex.NewName | manuscript_docs/helpers/rename_mex.py:14-16 | `R2` at indices `[4:6]` becomes `R1`, every other character kept; other names are unchanged; the result has no `R2` there |
| RenameMex.NewNameIdempotent | manuscript_docs/helpers/rename_mex.py:14-16 | renaming twice is renaming once |
| RenameMex.Rule | manuscript_docs/helpers/rename_mex.py:12-16 | an entry is renamed exactly when its name ends in upper-case `.WAV` and has `R2` at indices `[4:6]`, and the new name still ends in `.WAV` |
| RenameMex.RenameFiles | manuscript_docs/helpers/rename_mex.py:10-22 | the loop renames, in listing order, exactly the matching `.WAV` names, each to `NewName` |
| RenameMex.RenameFilesSettled | manuscript_docs/helpers/rename_mex.py:10-22 | a second run over the renamed folder renames nothing |
| MexSiteRename.SiteRuleMeaning | manuscript_docs/helpers/mex_site_rename.py:16-28 | a pass renames exactly the `.WAV` files with at least three fields and the given site field, and changes only that field |
| MexSiteRename.SiteNameFields | manuscript_docs/helpers/mex_site_rename.py:20-25 | `<a>_<site>_<rest>.WAV` is a candidate with that site, and setting the site field gives `<a>_<to>_<rest>.WAV` |
| MexSiteRename.TwoPasses | manuscript_docs/helpers/mex_site_rename.py:15-43 | after both passes an original `R2` recording is at `N1` and an original `R3` one at `R2`; other sites and the rest of the name are kept |
| MexSiteRename.OnePass | manuscript_docs/helpers/mex_site_rename.py:16-28 | one pass moves a recording at site `from` to `to` and keeps every other recording |
| MexSiteRename.NonCandidateKept | manuscript_docs/helpers/mex_site_rename.py:18-22 | directories, non-`.WAV` names and names with fewer than three fields are never renamed |
| MexSiteRename.RenameFiles | manuscript_docs/helpers/mex_site_rename.py:9-43 | the first pass renames over the listing and the second over the listing read again after the first |
| MexSiteRename.RenameFilesResult | manuscript_docs/helpers/mex_site_rename.py:9-43 | each recording of the listing ends at its final site, in the same place of the listing |
| RenameIndo.CodeTreatment | manuscript_docs/helpers/rename_indo.py:45 | the treatment of a code is what the treatment parser reads from a name `ind_<code>` |
| RenameIndo.SiteCodesDistinct | manuscript_docs/helpers/rename_indo.py:11-33 | the mapping holds 21 two-character codes, pairwise distinct |
| RenameIndo.SiteCodeTreatments | manuscript_docs/helpers/rename_indo.py:11-33 | each code starts with the letter of the treatment its folder is named after |
| RenameIndo.GroupTreatments | manuscript_docs/helpers/rename_indo.py:12-32 | a group whose folders and codes share a treatment letter matches throughout |
| RenameIndo.FolderCode | manuscript_docs/helpers/rename_indo.py:38-44 | a folder gets a code only when it is a directory with an entry in the mapping |
| RenameIndo.RenameAudioFiles | manuscript_docs/helpers/rename_indo.py:35-56 | the loops over the folders and their files make the renames of `FolderRenames`, in listing order |
| RenameIndo.MappedCode | manuscript_docs/helpers/rename_indo.py:41-45 | the code of a mapped folder is non-empty, has no `_`, and reads as the folder's treatment |
| RenameIndo.PrefixedName | manuscript_docs/helpers/rename_indo.py:45-53 | a name behind `ind_<code>_` reads back the code as its site and the code's treatment |
| RenameIndo.RenamedFileTreatment | manuscript_docs/helpers/rename_indo.py:45-53 | a renamed file of a mapped folder reads as the folder's code and treatment |
| RenameIndo.AfterRenames | manuscript_docs/helpers/rename_indo.py:46-56 | the folders after the loop, one per folder before it |
| RenameIndo.RenameAudioFilesSettled | manuscript_docs/helpers/rename_indo.py:50-52 | a second run renames nothing, since every renamed file already starts with its prefix |
| Capitals.NameStart | manuscript_docs/helpers/capitals.py:28 | the base name starts after the last `/`, and holds no `/` |
| Capitals.StripSlashes | manuscript_docs/helpers/capitals.py:27 | the result is a prefix of the path without a trailing `/` |
| Capitals.JoinSplitsBack | manuscript_docs/helpers/capitals.py:27-30 | for a root without a trailing `/` and a plain name, `basename` and `dirname` of their join give them back |
| Capitals.KeptPathsMeaning | manuscript_docs/helpers/capitals.py:16-18 | a root's kept paths are exactly its kept files joined to the root |
| Capitals.CollectedMeaning | manuscript_docs/helpers/capitals.py:11-18 | a path is collected exactly when it joins a kept file to a walked root other than the excluded one |
| Capitals.AudioFilesMeaning | manuscript_docs/helpers/capitals.py:9-19 | a path is collected exactly when it joins a `.wav` file, in any case, to a walked root other than the excluded one |
| Capitals.Collect | manuscript_docs/helpers/capitals.py:10-19 | the loop over the walk computes `Collected` |
| Capitals.AppendKept | manuscript_docs/helpers/capitals.py:16-18 | the inner loop appends a root's kept paths in order |
| Capitals.CollectAudioFiles | manuscript_docs/helpers/capitals.py:9-19 | the script's collection computes `AudioFiles` |
| Capitals.Capitalised | manuscript_docs/helpers/capitals.py:29 | each `d`, `h` and `r` of a name is upper-cased and every other character kept |
| Capitals.CapitalisedSettled | manuscript_docs/helpers/capitals.py:29 | a capitalised name has no `d`, `h` or `r` left, so capitalising it again changes nothing |
| Capitals.CapitalisedExample | manuscript_docs/helpers/capitals.py:4 | the example name becomes `inD_D5_20211023_230000.wav`; the `d` of `ind` is upper-cased too |
| Capitals.NewPathInPlace | manuscript_docs/helpers/capitals.py:27-30 | a file's new path is in its own folder, under the capitalised name |
| Capitals.AudioFileRenamedInPlace | manuscript_docs/helpers/capitals.py:27-30 | every collected file is renamed within its own folder, under the capitalised base name |
| Capitals.MoveFilesToDirectory | manuscript_docs/helpers/capitals.py:22-33 | one rename per file, in order, from the file to `NewPath` |
| Calendar.NextDayStep | manuscript_docs/settlement_cues.py:206 | the day after a valid date is valid and one day number later |
| Calendar.PrevDayStep | manuscript_docs/settlement_cues.py:206 | the day before a valid date is valid and one day number earlier |
| Calendar.PrevNext | manuscript_docs/settlement_cues.py:206 | stepping a day forward and back, or back and forward, returns the date |
| Calendar.AddDaysNumber | manuscript_docs/combine_counts.py:90 | moving by `n` days keeps a date valid and moves its day number by exactly `n` |
| Calendar.AddDaysAdd | manuscript_docs/combine_counts.py:90 | moving by `a` days and then by `b` days is moving by `a + b` days |
| Calendar.ShiftHoursSeconds | manuscript_docs/combine_counts.py:90 | adding `timedelta(hours=h)` gives a valid datetime exactly `3600 h` seconds later, with minutes and seconds unchanged |
| Calendar.ShiftHoursInverse | manuscript_docs/helpers/fix_timestamp.py:59 | shifting by `h` hours and then by `-h` hours gives the original datetime back |
| Calendar.ShiftHoursDate | manuscript_docs/combine_counts.py:89-91 | a shift of less than a day moves the date by at most one day |
| Calendar.DayNumberInjective | manuscript_docs/settlement_cues.py:199-209 | distinct valid dates have distinct day numbers |
| Strptime.Pad | manuscript_docs/combine_counts.py:91 | a padded number has exactly the width and only digits |
| Strptime.PadValue | manuscript_docs/combine_counts.py:91 | reading a padded number back gives the number when it fits the width |
| Strptime.Parse | manuscript_docs/combine_counts.py:87 | a parse that succeeds gives a valid datetime in the years 1 to 9999 |
| Strptime.RenderedDigits | manuscript_docs/combine_counts.py:91 | a rendered date is 8 digits and a rendered time 6 |
| Strptime.StampRoundTrip | manuscript_docs/combine_counts.py:86-91 | parsing the rendered `%Y%m%d_%H%M%S` stamp of a datetime gives that datetime |
| Strptime.CompactRoundTrip | manuscript_docs/helpers/fix_timestamp.py:54-63 | parsing the rendered `%Y%m%d%H%M%S` stamp of a datetime gives that datetime |
| Text.Slice | manuscript_docs/combine_counts.py:86 | `s[lo:hi]` clamps both bounds: the exact slice when they fit, empty when `hi <= lo` or `lo` is past the end |
| Text.Split | manuscript_docs/helpers/mex_site_rename.py:20 | at least one field, none holding the separator, and a string without the separator is its own only field |
| Text.JoinSplit | manuscript_docs/helpers/mex_site_rename.py:20-25 | joining the fields of a split gives the string back |
| Text.SplitJoin | manuscript_docs/helpers/mex_site_rename.py:20-25 | splitting a join of separator-free fields gives the fields back |
| Text.AfterFirst | manuscript_docs/calc_ecofunctions/temporal_overlap.py:69 | `split("/", 1)[-1]` is the string itself without a separator, and otherwise exactly what follows the first one |
| Text.StripIdempotent | manuscript_docs/helpers/check_mald_agile.py:24 | stripping twice is stripping once |
| Text.Lower | manuscript_docs/helpers/fix_timestamp.py:42 | lower-casing keeps the length and leaves no upper-case ASCII letter |
| Text.Upper | manuscript_docs/helpers/mex_site_rename.py:18 | upper-casing keeps the length and leaves no lower-case ASCII letter |
| Text.SplitExt | manuscript_docs/helpers/fix_timestamp.py:34 | stem and extension concatenate to the path, and an extension is a dot followed by no further dot or `/` |
| Text.SplitExtOf | manuscript_docs/helpers/fix_timestamp.py:34 | a stem not starting with a dot followed by a plain dot-led extension splits back into the two |
| Text.ReplaceChar | manuscript_docs/helpers/capitals.py:29 | every occurrence of the character is replaced and every other character kept |

## Reading the model

- Files, folders and tables are inputs. A raw file list is `Option<seq<string>>`, with `None` for a missing `raw_file_list.csv`. A sound folder is a `Folder` with its name, whether it is a directory, and the (file name, logit) rows of its table: `None` when `<sound>_inference.csv` is missing. A renamer's directory listing is a `seq<Entry>`, and `os.walk` is a `seq<WalkStep>`. They are all in the order the scripts read them.
- The two `phonic_richness_hourly.py` scripts differ only in the clock offset. `PhonicRichnessHourly` takes the offset as a parameter: the country's configured offset for the first script, 0 for the variant under `helpers/`.
- `count_ecofunctions.py` is not part of this model. Its `parse_date_time`, `parse_date`, `parse_site` and `parse_treatment`, which the night, richness and overlap scripts import, are modelled as the no-offset versions of the parsers in `combine_counts.py` (`Recording.ParseDateTime`, `Recording.ParseDate` with offset 0). Its duty cycles and the 90% coverage rule are taken to be those of `combine_counts.py`. The docstring of `phonic_richness.py` says its dates come "with time offset"; the code it calls could not be read, and the model follows the no-offset reading above.
- Both night scripts parse the whole listed path of a raw file when they total the night windows, but only the file-name part of a detection. The model keeps this as written. `SettlementCuescape.TotalsReadTheListedPath` shows its effect: a listed path with a folder in front raises there, although its file-name part parses.
- `%Y` is rendered zero-padded to four digits (`Strptime.Pad`), as CPython does on glibc. Other platforms and versions may write a year below 1000 with fewer digits; only the round-trip lemmas for such years depend on this.
- The example in the comment at the top of `helpers/capitals.py` keeps `ind` as it is. The code upper-cases every `d`, `h` and `r` of the name, including the `d` of `ind`. The model follows the code: see `Capitals.CapitalisedExample`.

## Left out

- Floating point. The Shannon formula is kept symbolic (`ShannonIndex.Entropy` of the counts). `np.log` of the night totals is kept symbolic (`NightWindows.LogOf`). Night proportions are kept as (detected, total) pairs. The decimal hour of a detection is kept as its second of the day. The coverage threshold `0.9 * expected` or `0.95 * expected` is compared exactly as a fraction.
- The sunset and sunrise times of `astral` in `get_night_window`. The night window of each date is a parameter `window: Date -> Option<Window>`, where `None` stands for a window that raises.
- `gaussian_kde`, the time grid and every plot. A kernel holds the sample it would be fitted to.
- TemporalOverlap.Kernels: a KDE that raises on its sample (all times equal, say) is caught and gives a missing kernel in the source. The model gives that kernel its sample, so it claims a kernel wherever the treatment has records.
- TemporalOverlapAggreg.AggregSound: there, too, a KDE that raises leaves that treatment's curve out of the plot, while its legend entry stays. This is not modelled.
- TemporalOverlapAggreg.CountedKernels: a chosen treatment's kernel holds its times even where the source's KDE would raise and draw no curve.
- Reading CSVs and the column choice between `" logit"` and `"logit"`. A detection carries one `logit`. A table that `pd.read_csv` cannot read is not modelled: the `except` around it in the two overlap scripts is left out, as is the `except` around `parse_date_time` there. With the parsers above, that one cannot raise once `parse_date` has succeeded. A row of `check_mald_agile.py`'s table that is shorter than its header gets `None` for the missing cells from `csv.DictReader`, and `None.strip()` raises there; the model reads such a row as one without a `filename` cell, which it looks up as the empty name.
- Writing CSVs and sorting. This covers `to_csv`, `sort_values` in the `main` functions, and the `DictWriter` of `check_mald_agile.py` and `functions_add_age.py`, including its error on rows with extra keys.
- The `main` loops over the countries. These are modelled for `combine_counts.py` only (`CombineCounts.CombineCountries`). The `main` functions of `shannon_index.py`, `phonic_richness.py`, both `phonic_richness_hourly.py` scripts and the two night scripts concatenate their per-country results in the same way. The `main` functions of the two overlap scripts concatenate nothing: they skip a country without valid (site, date) pairs and only plot the others. The model's counterpart is each script's `ProcessCountry`, which gives no sounds or plots for such a country.
- The `main` of `functions_add_age.py`. It calls `load_age_mapping` with a string where a `Path` is expected, so it raises before any row is read. `load_age_mapping` and `add_age_column_to_file` are modelled on their own.
- AddAge.AgedName: `Path.stem` is modelled by `os.path.splitext`; the two differ on unusual names, such as one ending in a dot, and the folder part of the path is left out.
- Logging, `tqdm` progress bars, `os.makedirs` and the `BASE_DIR` check of `timezone_shift.py`.
- Failures of `os.rename` and name collisions. The renamers return their renames as (old, new) pairs. The `try`/`except` blocks around the loops of `rename_R_to_N.py` and `rename_mex.py`, and around each rename in `capitals.py`, only catch such failures, so they are left out too.
- Strptime.Parse: only ASCII digits are read. CPython's `%Y`, `%m`, `%d`, `%H`, `%M` and `%S` patterns use `\d` without `re.ASCII`, and `int()` converts any Unicode decimal digit, so CPython also accepts a stamp written with other decimal digits (full-width ones, say), which the model refuses.
- Case mapping outside ASCII. `Text.Lower` and `Text.Upper` map only `A`–`Z` and `a`–`z`.
- The scripts of the repository outside this model: detection writers, downsampling, audio movers, file-list generation, KMZ conversion and the AUC summary.
