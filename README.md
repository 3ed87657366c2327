# Job-site whiteboard: occupancy, layout and attendance reconciliation in Dafny

This project models three parts of the job-site whiteboard program and proves properties of them.

- **The job-site hub** (`hub.dfy`, module `JobSiteHub`). A hub has four fixed role slots: PM, GM, Foreman and Super. Each is a plain boolean. The hub also keeps an ordered electrician roster of label ids and a collapsed flag.
  - `Hub` is a class whose methods update these fields in place: `update_occupation`, `update_electrician_positions`, `toggle_electrician_box`, `set_occupation_status` and `save_new_name`.
  - The box geometry of `update_positions` is a pure function over `real`. It takes the hub rectangle, the scale and the collapsed flag.
  - The points at which occupants' labels are placed are returned as `Placement`s.
  - The canvas is not an object of the model. Its knowledge of which item ids exist, and their types, is the parameter `items`.
- **The attendance reconciler** (`reconciler.dfy`, module `Reconciler`). This is `update_employee_locations`.
  - Feed rows (first name, last name, job description) are merged into the employee directory. Name and site lookups are case-insensitive. Roles on a whitelist may be marked Sick, and an unknown site falls back to "Unassigned".
  - A final pass marks as Sick every employee the feed did not name whose role is on the whitelist.
  - `Reconcile` is the specification. It is a fold over the rows followed by the final pass.
  - `UpdateEmployeeLocations` runs over an array of employees, updates them in place, and is proved to compute `Reconcile`.
  - `concatenate_names` and the text written by `save_relocation_log` are modelled too.
- **The spreadsheet report** (`summary.dfy`, module `ExcelReport`).
  - The per-site summary counts electricians and their skills.
  - The "Employee List" sheet places one group per site, using a row counter. The row where each group starts is recorded in a mapping.
  - Summary cells link to those rows.
- `wrappers.dfy` (module `Wrappers`) holds the `Option` type the other modules share.
- `strings.dfy` (module `Strings`) holds the parts of Python's `str` that the program relies on: `strip`, `isspace`, `lower`, `in` and `join`, with their properties.

## Model

| member | source | states |
|---|---|---|
| JobSiteHub.FixedBoxGeometry | job_site_hub.py:87-102 | Fixed box k (PM, GM, Foreman, Super) spans x1+10s to x2−10s. Its top is y1+10(k+1)s+70ks and its bottom is its top + 70s. |
| JobSiteHub.FixedBoxesSeparated | job_site_hub.py:87-102 | For s > 0, consecutive fixed boxes are separated by exactly 10s and do not overlap. |
| JobSiteHub.ElectricianBoxGeometry | job_site_hub.py:104-112 | The roster box ends at y2−10s in both modes. Its top is y2−740s when expanded and y2−50s when collapsed. The button reads "[-]" when expanded and "[+]" when collapsed. |
| JobSiteHub.ElectricianBoxClearsFixedIff | job_site_hub.py:99-107 | The expanded roster box starts below the Super box if and only if the hub is taller than 1060s. |
| JobSiteHub.ElectricianBoxOverlapsAtCreationSize | job_site_hub.py:104-107 | At the 800-unit creation height and scale 1, the roster box's top is y+60, inside the PM box. |
| JobSiteHub.ComputeLayout | job_site_hub.py:81-115 | Definition of the five box rectangles, the collapse label and the two button points from the hub rectangle, the scale and the collapsed flag. The lemmas above state its geometry. |
| JobSiteHub.FixedSlotPlacement | job_site_hub.py:154-158 | At most one label is placed, exactly when the id found is truthy. It is that id, at x1+35 on the box's top edge y1. |
| JobSiteHub.FixedOccupantPlacement | job_site_hub.py:154-174 | A fixed box shows the first label of its role snapped to the hub, at (x1+35, y1). Nothing is placed if and only if no label qualifies or the first one's id is 0. |
| JobSiteHub.RosterPlacementsStack | job_site_hub.py:220-223 | When every roster id is a text label, occupant i is placed at (x1+35, y1+i·40·appScale), in roster order. |
| JobSiteHub.RosterPlacementsFromRoster | job_site_hub.py:220-223 | Only roster ids that the canvas holds as text labels are placed, and never more than the roster holds. |
| JobSiteHub.RosterPlacements | job_site_hub.py:220-223 | Definition: roster entry i, when the canvas holds it as text, is placed at slot i of the roster box. |
| JobSiteHub.FirstSnapped | job_site_hub.py:170-174 | Returns the id of the first label with the role that is snapped to this hub. It is None if and only if there is no such label. |
| JobSiteHub.LiveOnly | job_site_hub.py:213-218 | The filtered roster is no longer than before. |
| JobSiteHub.LiveOnlyMembers | job_site_hub.py:213-218 | An id is in the filtered roster if and only if it is in the roster and the canvas still knows it. |
| JobSiteHub.LiveOnlyAppend | job_site_hub.py:213-218 | Filtering distributes over concatenation, so relative order is kept. |
| JobSiteHub.LiveOnlyKeepsLive | job_site_hub.py:213-218 | A roster whose ids all exist is unchanged by filtering. |
| JobSiteHub.LiveOnlyIdempotent | job_site_hub.py:213-218 | Filtering twice is the same as filtering once. |
| JobSiteHub.LiveOnlyNoDuplicates | job_site_hub.py:213-218 | Filtering a duplicate-free roster leaves it duplicate-free. |
| JobSiteHub.IndexOf | job_site_hub.py:193-194 | The position `list.remove` takes out is the first occurrence. |
| JobSiteHub.RemoveFirstAt | job_site_hub.py:193-194 | Removing the first occurrence keeps the entries before it in place and shifts the ones after it down by one. |
| JobSiteHub.RemoveFirst | job_site_hub.py:193-194 | Definition of `list.remove`: the first occurrence is taken out. |
| JobSiteHub.Occupy | job_site_hub.py:191-197 | Definition of the roster update: vacating removes a present id, occupying appends a truthy absent id. |
| JobSiteHub.OccupyAdds | job_site_hub.py:195-197 | Occupying appends a truthy id only when it is absent. The roster stays duplicate-free and keeps its prefix, and occupying again is a no-op. |
| JobSiteHub.OccupyRemoves | job_site_hub.py:192-194 | Vacating removes the id if present. Every other entry keeps its order, and an absent id leaves the roster unchanged. |
| JobSiteHub.StatusOf | job_site_hub.py:239-258 | The saved record has all four flag keys, the roster in order and the collapsed flag. Restoring it on the hub it came from completes without a missing key and changes nothing. |
| JobSiteHub.ApplyStatus | job_site_hub.py:260-275 | A missing PM/GM/Foreman/Super key is an error that names the key, and only the flags before it have been written. With the four flags present, each key present is copied: the flags, an id-list roster, the collapsed flag and each box's coordinates. A missing or boolean roster becomes []. A missing collapsed flag becomes false. Missing coordinates become [0,0,0,0]. |
| JobSiteHub.StatusRoundTrip | job_site_hub.py:239-275 | Restoring a saved record brings back the flags, the roster in order, the collapsed flag and the boxes. |
| JobSiteHub.DisplayText | job_site_hub.py:69-72 | A name of up to 17 characters is kept. A longer name becomes its first 15 characters plus "...". The address follows directly. |
| JobSiteHub.NameAcceptedIff | job_site_hub.py:302 | The name entry is accepted if and only if it contains a non-whitespace character. |
| JobSiteHub.Hub.constructor | job_site_hub.py:8-49 | A new hub is 320×800, empty, expanded and laid out at scale 1. |
| JobSiteHub.Hub.EmployeeIdByRole | job_site_hub.py:170-174 | The linear search returns `FirstSnapped`. |
| JobSiteHub.Hub.PlaceFixedOccupant | job_site_hub.py:154-158 | Places the found occupant of a fixed box as `FixedSlotPlacement` states. |
| JobSiteHub.Hub.FixedPlacements | job_site_hub.py:133-152 | Definition: the PM, GM, Foreman and Super placements, in that order, each only when its flag is set. |
| JobSiteHub.Hub.UpdateElectricianPositions | job_site_hub.py:203-223 | The roster becomes its live ids in their order, and the placements are the stacked slots. |
| JobSiteHub.Hub.RosterOrigin | job_site_hub.py:204-208 | Definition: the roster box when it exists on the canvas, else the rectangle at the origin. |
| JobSiteHub.Hub.UpdateAllPositions | job_site_hub.py:131-152 | Places the roster first, then the occupants of the PM, GM, Foreman and Super slots whose flags are set. |
| JobSiteHub.Hub.UpdatePositions | job_site_hub.py:81-118 | The boxes are recomputed from the unchanged hub rectangle, scale and collapsed flag. The roster is re-filtered, and the placements are the roster's followed by the fixed slots'. |
| JobSiteHub.RelayoutIsStable | job_site_hub.py:81-115 | Two layouts with the same scale give identical boxes, with no drift. |
| JobSiteHub.Hub.ToggleElectricianBox | job_site_hub.py:120-121 | Flips `collapsed` and nothing else. |
| JobSiteHub.Hub.UpdateOccupation | job_site_hub.py:176-198 | PM/GM/Foreman/Super set only their own flag, and occupying Super places its occupant. Electrician and Fire Alarm update the roster with `Occupy`, then re-filter and re-place it. Any other box name changes nothing and places nothing. |
| JobSiteHub.Hub.GetOccupationStatus | job_site_hub.py:239-258 | Returns `StatusOf` of the hub's occupancy. |
| JobSiteHub.Hub.SetOccupationStatus | job_site_hub.py:260-284 | The new occupancy is `ApplyStatus` of the old one, with the roster re-filtered on success. Everything else in the layout is unchanged. On success every label is re-placed; on a missing key nothing is. |
| JobSiteHub.Hub.RestoreFlags | job_site_hub.py:261-264 | Writes the four flags in order and stops at the first missing key. |
| JobSiteHub.Hub.SaveNewName | job_site_hub.py:299-306 | The name is replaced only by an entry that is not empty or all whitespace. The address is replaced only by a non-empty entry. The caption is `DisplayText`. |
| Reconciler.ConcatenateNames | traqsperaCsvToJson.py:64-66 | The result is the stripped first name, one space, then the stripped last name. When both parts have content, it needs no further stripping. |
| Reconciler.LookupEmployee | traqsperaCsvToJson.py:81 | A found employee's stripped, lower-cased name equals the key. |
| Reconciler.LookupEmployeeNone | traqsperaCsvToJson.py:81 | An employee is found if and only if some entry has the key. |
| Reconciler.LookupEmployeeLast | traqsperaCsvToJson.py:81 | The dictionary keeps the last entry for a key: no later entry has it. |
| Reconciler.SiteIndex | traqsperaCsvToJson.py:76 | A found position holds a site whose stripped, lower-cased name equals the key. |
| Reconciler.SiteIndexNone | traqsperaCsvToJson.py:76 | A site is found if and only if some site has the key. |
| Reconciler.SiteIndexLast | traqsperaCsvToJson.py:76 | The dictionary keeps the last site for a key: no later site has it. |
| Reconciler.LookupSite | traqsperaCsvToJson.py:76 | A found site is one of the job sites, and its stripped, lower-cased name equals the key. |
| Reconciler.Relocate | traqsperaCsvToJson.py:141-154 | Changes only employee i's site and status. It appends exactly one {name, old site, new site} record when it changes anything, and none otherwise. |
| Reconciler.RelocateWritesIff | traqsperaCsvToJson.py:142 | The employee is rewritten if and only if the old site or the status differs, case-insensitively. |
| Reconciler.UnassignedKey | traqsperaCsvToJson.py:157-159 | "Unassigned" has no surrounding whitespace, so comparing with its lower-case form is comparing with its key. |
| Reconciler.MoveEmployee | traqsperaCsvToJson.py:123-172 | The name is reported unmatched if and only if the description names no site. For a known site other than a refused "sick", the employee is rewritten if and only if its site or status differs from the target, case-insensitively; a refused "sick" changes nothing. For an unknown site, it is rewritten if and only if it is not already Unassigned and On-site. A record is added only for a change, and it names the site the employee moved to. |
| Reconciler.MoveToUnassigned | traqsperaCsvToJson.py:156-172 | The employee is moved to "Unassigned", On-site, if and only if it is not already there with that status, case-insensitively. Only such a change is logged, and the name is always reported as unmatched. |
| Reconciler.MoveToSite | traqsperaCsvToJson.py:127-154 | The site "sick" applies only to whitelisted roles, and otherwise the row has no effect. In every other case the employee is rewritten if and only if its site or status differs from the target, case-insensitively. A change sets the named site and `SiteStatus`. |
| Reconciler.SiteStatus | traqsperaCsvToJson.py:130-140 | The site named "sick" in any case sets status Sick, and every other site sets On-site. |
| Reconciler.Step | traqsperaCsvToJson.py:91-175 | A row never changes the number of employees, and adds its name key to the seen set exactly when it has both names (nothing else). |
| Reconciler.StepKeepsIdentity | traqsperaCsvToJson.py:117-172 | A row never changes a name, role or skills. |
| Reconciler.StepGrows | traqsperaCsvToJson.py:91-175 | A row leaves the unmatched names and the records as they were or appends exactly one entry to each. |
| Reconciler.StepLogsChanges | traqsperaCsvToJson.py:141-171 | A row logs a record exactly when it changes an employee. |
| Reconciler.StepChangesOnlyNamed | traqsperaCsvToJson.py:117-119 | Only the employee whose key the row names can change. |
| Reconciler.StepSkips | traqsperaCsvToJson.py:97-115 | A row missing a name changes nothing. A row without a description only adds its name to the seen set. |
| Reconciler.Rows | traqsperaCsvToJson.py:91-175 | The row loop never grows or shrinks the employee list. |
| Reconciler.RowsKeepIdentity | traqsperaCsvToJson.py:91-175 | After the loop, every employee keeps its name, role and skills. |
| Reconciler.RowsSeen | traqsperaCsvToJson.py:98-105 | The seen set is exactly the name keys of the rows, independent of the directory. |
| Reconciler.RowsUntouched | traqsperaCsvToJson.py:117-119 | An employee the feed never names is untouched by the row loop. |
| Reconciler.RowsGrow | traqsperaCsvToJson.py:91-175 | After n rows there are at most n records and at most n unmatched names. |
| Reconciler.MarkAbsent | traqsperaCsvToJson.py:179-185 | The final pass keeps every field but the status. An employee changes if and only if it is absent, whitelisted and not already Sick, and every absent whitelisted employee ends up Sick. |
| Reconciler.AbsentRecord | traqsperaCsvToJson.py:187-191 | A final-pass record names the employee and gives its stored site ("" when none) as both the old and the new site. |
| Reconciler.AbsentRecords | traqsperaCsvToJson.py:179-192 | Definition: one `AbsentRecord` per marked employee, in directory order. |
| Reconciler.AbsentRecordsSpec | traqsperaCsvToJson.py:179-192 | There are as many final-pass records as marked employees, and each record is the `AbsentRecord` of a marked employee. |
| Reconciler.AbsentRecordsPrefix | traqsperaCsvToJson.py:179-192 | The records for the first i employees are a prefix of the records for all of them. |
| Reconciler.AbsentRecordAt | traqsperaCsvToJson.py:179-192 | Marked employee j's record is at the position counting the marked employees before it, so the records follow directory order and no marked employee is logged twice or skipped. |
| Reconciler.CountAbsentIdentity | traqsperaCsvToJson.py:179-183 | Which employees the final pass marks depends only on names, roles and the seen set. |
| Reconciler.ReconcileEffect | traqsperaCsvToJson.py:69-196 | Names, roles and skills never change. An employee the feed does not name is unchanged, except that a whitelisted role becomes Sick. |
| Reconciler.MarkAbsentEffect | traqsperaCsvToJson.py:177-185 | The final pass keeps names, roles and skills, and sets Sick on exactly the unseen whitelisted employees. |
| Reconciler.RerunRepeatsFinalPass | traqsperaCsvToJson.py:177-192 | Re-running the same feed emits the same number of final-pass records again, so the reconciliation is not idempotent. |
| Reconciler.RerunExample | traqsperaCsvToJson.py:177-192 | One whitelisted employee and an empty feed: both runs log the same record. |
| Reconciler.ApplyRow | traqsperaCsvToJson.py:91-175 | One loop iteration over the array computes `Step`. |
| Reconciler.ApplyRows | traqsperaCsvToJson.py:91-175 | The row loop over the array computes `Rows`. |
| Reconciler.MarkAbsentEmployees | traqsperaCsvToJson.py:177-194 | The final-pass loop computes `MarkAbsent` and `AbsentRecords`. |
| Reconciler.AbsentRecordsStep | traqsperaCsvToJson.py:179-192 | One more employee adds one record exactly when it is marked. |
| Reconciler.UpdateEmployeeLocations | traqsperaCsvToJson.py:69-196 | The employees, unmatched names and records it produces are those of `Reconcile`: row records first, then final-pass records. |
| Reconciler.Reconcile | traqsperaCsvToJson.py:69-196 | Definition: the row loop, then the final pass. The row records come before the final-pass records. |
| Reconciler.BlockLines | traqsperaCsvToJson.py:205-209 | Each record is written as four lines. |
| Reconciler.RecordLines | traqsperaCsvToJson.py:206-209 | Definition of a record's four lines: name, old site, new site and the rule. |
| Reconciler.LogText | traqsperaCsvToJson.py:203-209 | Definition of the log: the header lines, then every record's four lines, each line ended by a line break. |
| Reconciler.TextAppend | traqsperaCsvToJson.py:203-209 | Writing two runs of lines gives the text of the first followed by the text of the second. |
| Reconciler.TextLineBreaks | traqsperaCsvToJson.py:203-209 | Lines without line breaks give text with exactly one line break per line. |
| Reconciler.LogBlockAt | traqsperaCsvToJson.py:203-209 | Record k's four lines come right after the three header lines and the 4k lines of the records before it. |
| Reconciler.BlockLinesAt | traqsperaCsvToJson.py:205-209 | The lines of record k are lines 4k to 4k+3 of the blocks. |
| Reconciler.HeaderSingleLines | traqsperaCsvToJson.py:203-204 | The title, the rule and the blank header line hold no line break. |
| Reconciler.RecordSingleLines | traqsperaCsvToJson.py:206-209 | A record's four lines hold no line break when its fields hold none. |
| Reconciler.BlockSingleLines | traqsperaCsvToJson.py:205-209 | No block line holds a line break when no record field does. |
| Reconciler.LogLineCount | traqsperaCsvToJson.py:203-209 | When no field contains a line break, the log has exactly 3 + 4n lines. |
| Reconciler.WriteLines | traqsperaCsvToJson.py:203-209 | Writing lines one by one, each with its line break, appends their `Text`. |
| Reconciler.SaveRelocationLog | traqsperaCsvToJson.py:199-209 | The text written is `LogText`: the header lines, then each record's four lines, in record order. |
| ExcelReport.ElectriciansSpec | jsonToExcel.py:36-43 | The counted electricians are exactly the employees whose site equals the site name exactly, who are not Sick, and whose role contains "electrician" in any case. |
| ExcelReport.Electricians | jsonToExcel.py:36-43 | The counted electricians of a site, in directory order, are no more than the employees. |
| ExcelReport.SkillCounts | jsonToExcel.py:49-53 | Definition: each listed skill counted once per occurrence. |
| ExcelReport.SiteSummary | jsonToExcel.py:33-61 | Definition: the site name, the skill counts and the number of the site's counted electricians. |
| ExcelReport.TotalCountsElectricians | jsonToExcel.py:41-46 | "Total Electricians" is the number of such employees. |
| ExcelReport.SkillColumnIff | jsonToExcel.py:49-58 | A skill has a column if and only if some counted electrician lists it. |
| ExcelReport.SkillCountsIff | jsonToExcel.py:49-53 | A skill's count is positive if and only if some employee lists it. |
| ExcelReport.BuildSummary | jsonToExcel.py:33-61 | There is one summary row per job site, in order, and each is that site's `SiteSummary`. |
| ExcelReport.GroupSpec | jsonToExcel.py:105 | A group holds exactly the employees stored at that site, Sick or not. |
| ExcelReport.GroupAppend | jsonToExcel.py:105 | Grouping keeps directory order: the group of a concatenation is the concatenation of the groups. |
| ExcelReport.GroupCount | jsonToExcel.py:105 | A group has exactly one entry per employee stored at the site. |
| ExcelReport.Group | jsonToExcel.py:105 | A group is no longer than the directory. |
| ExcelReport.MemberRow | jsonToExcel.py:115-118 | Definition: name, role, and the skills joined by ", ", or "" when there is no list. |
| ExcelReport.MemberRows | jsonToExcel.py:113-119 | There is one member row per group member. |
| ExcelReport.MemberRowsAt | jsonToExcel.py:113-119 | Member row m is the row of the group's member m: name, role and the skills joined by ", ". |
| ExcelReport.GroupBlock | jsonToExcel.py:107-120 | A group takes its header row first, then one row per member, then a blank row. |
| ExcelReport.GroupStart | jsonToExcel.py:95-120 | Group k starts at row 2 + 2k or later: each earlier group takes at least its header and blank rows. |
| ExcelReport.GroupBlocksAppend | jsonToExcel.py:105-120 | The groups are written one after another. |
| ExcelReport.GroupStartLength | jsonToExcel.py:95-111 | Group k's start row is 2 plus the rows the earlier groups fill. |
| ExcelReport.SheetSplit | jsonToExcel.py:105-120 | The sheet is the column headers, the groups before k, group k, then the rest. |
| ExcelReport.GroupRows | jsonToExcel.py:107-120 | Group k's header is on its start row, member m is m+1 rows below it, and the blank row follows the members. |
| ExcelReport.EmployeeListSheet | jsonToExcel.py:97-120 | Definition: the column headers, then each group's block in group order. |
| ExcelReport.RowMapping | jsonToExcel.py:105-107 | Definition: each of the first n sites mapped to its group's start row, later entries overriding earlier ones. |
| ExcelReport.ListIncludesEveryone | jsonToExcel.py:105-119 | Every employee with a site is listed, including Sick ones. |
| ExcelReport.RowMappingKeys | jsonToExcel.py:105-107 | After n groups the mapping holds exactly the first n site names. |
| ExcelReport.RowMappingValue | jsonToExcel.py:105-107 | With distinct site names, each mapped site points to its own group's start row. |
| ExcelReport.ListStep | jsonToExcel.py:105-120 | Each group extends the sheet, the counter and the mapping. |
| ExcelReport.WriteEmployeeList | jsonToExcel.py:94-120 | The row-counter loop writes `EmployeeListSheet` and fills `RowMapping`. |
| ExcelReport.WriteGroup | jsonToExcel.py:107-120 | Writes one group and advances the counter by its rows. |
| ExcelReport.Hyperlink | jsonToExcel.py:127-129 | A cell is linked if and only if its site is in the mapping. The link is column A of the "Employee List" sheet followed by digits that read back as the mapped row. |
| ExcelReport.AddHyperlinks | jsonToExcel.py:124-130 | Each summary row gets `Hyperlink` of its site. |
| ExcelReport.HyperlinkIff | jsonToExcel.py:122-130 | A site is linked if and only if some employee is stored there. The link is "#'Employee List'!A" followed by its group's start row. |
| Strings.IsSpace | job_site_hub.py:302 | Definition of `isspace`: non-empty and made only of whitespace characters. |
| Strings.TrimLeftSpec | traqsperaCsvToJson.py:66 | Left-stripping drops exactly a leading run of whitespace. The result is empty or starts with a non-whitespace character. |
| Strings.TrimRightSpec | traqsperaCsvToJson.py:66 | Right-stripping drops exactly a trailing run of whitespace. The result is empty or ends with a non-whitespace character. |
| Strings.Strip | traqsperaCsvToJson.py:66 | `strip` never lengthens a string. |
| Strings.StripSpec | traqsperaCsvToJson.py:66 | Neither end of a stripped string is whitespace. It is empty if and only if the input is all whitespace, and a string with no whitespace at its ends is unchanged. |
| Strings.Lower | traqsperaCsvToJson.py:81 | `lower` keeps the length. |
| Strings.LowerAt | traqsperaCsvToJson.py:81 | `lower` maps each character on its own, in place. |
| Strings.Contains | jsonToExcel.py:41-43 | Definition of `pat in s`: `pat` starts at position 0 or occurs in the rest. |
| Strings.ContainsIff | jsonToExcel.py:41-43 | `pat in s` holds if and only if `pat` occurs at some position of `s`. |
| Strings.Join | jsonToExcel.py:117 | Joining no parts gives "" and joining one part gives that part. |
| Strings.JoinAppend | jsonToExcel.py:117 | Joining two non-empty runs of parts puts exactly one separator between them. |
| Strings.JoinLength | jsonToExcel.py:117 | A join is as long as its parts together plus one separator between each two. |
| Strings.NatToString | jsonToExcel.py:129 | `str(n)` is a non-empty run of decimal digits. |
| Strings.NatToStringValue | jsonToExcel.py:129 | `str(n)` reads back as n and has no leading zero unless n is 0. |

## Notes on behaviour

- **Re-running a feed is not idempotent.** The final pass re-marks absent whitelisted employees and logs a record for each on every run, even when they are already Sick. See `RerunRepeatsFinalPass` and `RerunExample`.
- **Fixed slots are plain booleans.** Nothing checks an occupant's role or whether a slot is already taken. The roster accepts any id reported for the "Electrician" or "Fire Alarm" box.
- **Restoring a record can write it in part.** A record missing "GM", "Foreman" or "Super" raises `KeyError` after the earlier flags have already been written (`ApplyStatus`). Nothing rolls those writes back.
- **Boxes can overlap.** The fixed boxes never overlap one another for a positive scale. The expanded roster box clears them only in hubs taller than 1060 scaled units, and a new hub is 800 tall.
- **Files are overwritten in place.** The JSON file and the log are opened with `'w'`. There is no atomic save.

## Left out

- Tkinter: item creation and deletion, tag bindings, `itemconfig` states, `tag_raise`, message boxes, the rename popup, `__del__`, `erase_hub` and `confirm_erase_hub`. Only the coordinates passed to `coords` are modelled.
- Occupant circles are not modelled, because `app.find_circle` is not part of this model. Only the name labels' positions are.
- Floating point: coordinates are `real`, and no rounding is modelled.
- Debug printing and all file I/O (`load_csv`, `load_json`, `save_json`, the file in `save_relocation_log`, `main`, `sys.exit`). The log is modelled as the text it would hold.
- `lower()` is modelled on ASCII letters only. Unicode case mapping is not modelled.
- The element types of a status record are not checked. Flags are modelled as booleans and coordinates as rectangles.
- A record without `text`, a site without `name` and a JSON `null` site (which `strip` would fail on) are not modelled. The model always has a name, and `None` stands for an absent `job_site` key.
- pandas behaviour:
  - an empty CSV cell is modelled as "";
  - the groupby order of sites is taken as an input, with no employee lacking a site in any group;
  - the order of the skill columns is not kept, because `skillCounts` is a multiset;
  - the fallback total computation (jsonToExcel.py:67-74) is only reachable with no job sites.
- openpyxl: cell styles, the "Employees" sheet and the sheet order are not modelled. A summary cell's value is assumed to read back as the site name it was written with.
- GetOccupationStatus: the roster in the returned record is a copy in the model. In the program it is the hub's own list (job_site_hub.py:251), so `append` and `remove` in `update_occupation` (job_site_hub.py:193-197) also change a record taken earlier, until line 218 replaces the list.
- ExcelReport.GroupRows: states the header and blank rows only for groups with at least one member, which is the only kind grouping produces.
- `webScraper.py` (browser automation), `dash_board.py` (web UI), `main.py`, `run_dashboard.py` and `constants.py` are not part of this model. `constants.py`'s two box heights are inlined.
- Cross-hub exclusivity, place/unassign and saving the whole board belong to a whiteboard application module that is not part of this model.
