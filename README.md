# SmartScheduler core in Dafny

SmartScheduler builds weekly college timetables. An Excel workbook describes the inputs: courses, teachers, rooms, timeslots and student groups. The scheduler does three things:

- It creates 0/1 solver variables, one for every (group, course instance, window of consecutive slots, teacher, room) combination it considers possible.
- It posts five families of constraints over those variables.
- It turns the variables the solver sets into a schedule: group → entry key → (timeslot, teacher, room, course).

A genetic algorithm then improves the schedule. It encodes the schedule as a flat list of integer triples, recombines and mutates those lists, scores them by gaps between a group's classes and decodes them back. An output generator renders per-group, per-teacher and per-room grids (time × day) and summary statistics.

This project models that core in Dafny. It covers:

- parsing each sheet and validating the data;
- the candidate variables and constraints;
- extraction of a schedule from a feasible 0/1 assignment;
- the genome encoder and decoder, crossover and mutation;
- the gap score;
- the grid builders and the statistics.

Python dicts keep insertion order, and the program relies on that order: id lists, the first key with a prefix, "later writes win" in grids. So every dict is a `Dicts.Dict` (a key sequence plus a map). Python's `==` on dicts ignores order, so equality of schedules is stated on `Schedules.View`.

Modules, one per file:

- `Text`: `str.strip`, `upper`, `lower`, `split`, `int` and `str` of integers.
- `Seqs`, `Sorting`: Python's stable `sorted`.
- `Dicts`, `Entities`: the records the parser produces.
- `InputParser`: the parser class.
- `Slots`: day lists and windows.
- `Candidates`: instances, teachers, rooms, variables.
- `Schedules`: schedule entries.
- `Constraints`: constraints and extraction.
- `Genome`: encode and decode.
- `RoundTrip`: the encode/decode round trip.
- `Operators`: crossover and mutation.
- `Gaps`: the gap score.
- `Timetables`: the grids.
- `Statistics`: the summary statistics.

## Model

| member | source | states |
|---|---|---|
| Candidates.Frequency | scheduler.py:31-37 | weekly instances per course type: 3 exactly for TH, 2 exactly for LAB, 1 otherwise (PROJECT, PR, unknown types) |
| Candidates.InstanceKeyInjective | scheduler.py:79 | two instance keys `course_k` are equal only for the same course and instance number |
| Candidates.SplitInstanceKey | scheduler.py:215 | for a course id without '_', `instance_key.split('_')[0]` gives the course id back |
| Candidates.GroupInstancesMembers | scheduler.py:66-79 | the instances created for a group are exactly (listed, existing course, 1..frequency); they are distinct and have distinct keys |
| Candidates.SuitableTeachersFacts | scheduler.py:81-82 | suitable teachers are exactly the teachers handling the course, in teacher order, without repeats |
| Candidates.SuitableRooms | scheduler.py:236-249 | the room loop computes the specification of suitable rooms |
| Candidates.SuitableRoomsFacts | scheduler.py:236-249 | suitable rooms keep room order; they are empty only when there are no rooms; they hold the first room and every room whose type suits the course; every room after the first suits |
| Candidates.DurationOf | scheduler.py:74 | `courses[c]['duration']` of an existing course, which is at least 1 under the positive-duration premise |
| Candidates.CandidatesMembers | scheduler.py:64-105 | a variable exists iff its group/instance is created, its window is a run of its day, its teacher handles the course and its room is suitable |
| Candidates.Offers | scheduler.py:77-105 | the variables of one instance: for each window, each suitable teacher, each suitable room, in that loop order (membership: CandidatesMembers) |
| Candidates.AllCandidates | scheduler.py:64-105 | every variable in creation order, group by group and instance by instance |
| Candidates.OffersEmpty | scheduler.py:64-105 | an instance gets no variable iff no window of its length exists, or no teacher handles it, or there are no rooms |
| Candidates.CandidatesDistinct | scheduler.py:64-105 | no variable is created twice |
| Slots.DaySlotsFacts | scheduler.py:86-94 | a day's slots are exactly that day's timeslots, distinct and sorted by slot_index |
| Slots.DayWindows | scheduler.py:95-98 | the window loop computes the windows of a day |
| Slots.WindowsOfDay | scheduler.py:95-98 | a day with n slots has n-d+1 windows of length d (none if n < d); each is a distinct, sorted run of consecutive slots of that day |
| Slots.AllWindowsDistinct | scheduler.py:93-98 | windows over all days are distinct |
| Constraints.CandidateShape | scheduler.py:93-105 | every variable's window has the course's length and lies within one day |
| Constraints.Within | scheduler.py:64-105 | only variables the scheduler created can be set |
| Constraints.AtMostOnce | scheduler.py:107-116 | constraint 1, upper half: at most one set variable per instance of a group |
| Constraints.Covers | scheduler.py:107-116 | constraint 1, lower half: an instance with variables has one set; one without variables is unconstrained |
| Constraints.NoClash | scheduler.py:118-176 | constraints 2-4: two set variables whose windows share a slot have different teachers, rooms and groups |
| Constraints.SpreadDays | scheduler.py:178-202 | constraint 5: two instances of one course for one group start on different days |
| Constraints.Feasible | scheduler.py:107-202 | a 0/1 assignment meets all five constraint families |
| Constraints.Extract | scheduler.py:209-231 | the extraction loop computes ExtractSpec, whose keys are the group ids; it is the corrected extraction, which labels entries with the instance's own course (see Findings) |
| Constraints.ExtractPlaces | scheduler.py:218-230 | each set variable writes, under key `inst_part{i+1}` (or `inst` for duration 1), its slot i, teacher, room and the instance's course (the corrected extraction; the source's when no course id holds '_', by ExtractAsWrittenAgrees) |
| Constraints.ExtractSound | scheduler.py:218-230 | every entry of the extracted schedule was written by a set variable |
| Constraints.ExtractNoClash | scheduler.py:107-176 | in a feasible assignment, two different entries at the same timeslot belong to different groups and have different teachers and rooms |
| Constraints.ExtractCovers | scheduler.py:107-116 | every instance that had variables appears in the extracted schedule |
| Constraints.ExtractSkips | scheduler.py:107-116 | an instance without variables gets no entry (its sum constraint is not posted) |
| Text.SplitHead | scheduler.py:215 | `(a + sep + b).split(sep)[0]` is `a` when `a` holds no separator |
| Constraints.KeyPrefixOfInstance | scheduler.py:215 | the key prefix of `course_k` is the course when the course id holds no '_' |
| Constraints.ExtractAsWritten | scheduler.py:209-231 | extraction as the source writes it: KeyError iff the key prefix of some created instance is not a course; otherwise a schedule keyed by the group ids |
| Constraints.ExtractAsWrittenAgrees | scheduler.py:213-230 | with no '_' in any course id, extraction as written succeeds and equals ExtractSpec |
| Constraints.ExtractAsWrittenRaises | scheduler.py:215-216 | a listed course `a_b` ("CS_101") with no course `a` ("CS") makes extraction raise KeyError |
| Constraints.WrittenPlacementMislabels | scheduler.py:215-230 | when `a` is a course, a variable of course `a_b` is written with course id `a` and with `a`'s duration |
| Schedules.PartKeyInjective | scheduler.py:224 | entry keys of different instances or parts never collide |
| Schedules.Place | scheduler.py:223-230 | writing one placement's parts yields `Apply` |
| Schedules.ApplyFacts | scheduler.py:223-230 | a placement appends its part keys with their entries and leaves every other entry and group unchanged |
| Schedules.ApplyAllKeys | scheduler.py:209-231 | after a sequence of placements, a group's keys are its old keys followed by the placements' part keys in order |
| Schedules.ApplyAllSource | scheduler.py:209-231 | every entry after a sequence of placements is old or written by one of them |
| Genome.WalkCourses | scheduler.py:330-331 | the decoder walks a group's listed courses (as a multiset); a missing group gives none |
| Genome.PySlice | scheduler.py:352 | Python slicing: the plain slice when in range, otherwise a run of the list |
| Genome.DecodeGene | scheduler.py:338-361 | one triple: indices reduced modulo the list lengths, the window from that slot in its day, None past the day's end (facts: DecodeGeneFacts) |
| Genome.DecodeGeneFacts | scheduler.py:338-361 | a triple fails (ZeroDivisionError) iff an id list is empty; a placement it yields is for the item's group/instance, with a window of the course's length inside one day |
| Genome.Decode | scheduler.py:324-362 | the decoding loop computes the decoder's specification |
| Genome.DecodeStops | scheduler.py:339 | with fewer than three genes left, nothing more is decoded |
| Genome.DecodeSpec | scheduler.py:324-362 | the decoder's specification: every group, sorted, starts empty; the items are decoded in walk order and written in turn |
| Genome.DecodeItemsRaises | scheduler.py:339-342 | with an empty id list, decoding fails exactly when a triple is read |
| Genome.DecodeItemsWellFormed | scheduler.py:338-361 | every decoded placement is well formed and comes from a planned item |
| Genome.FirstWithPrefix | scheduler.py:312 | the first key with the prefix, or none iff no key has it |
| Genome.EncodeInstance | scheduler.py:312-321 | no key with the prefix gives [0,0,0]; otherwise the three indices of the first matching entry, or failure (ValueError) iff one of its ids is unknown |
| Genome.EncodeSpec | scheduler.py:302-322 | the encoder's specification: one triple per (group, course, instance) in the sorted walk (shape: EncodeShape) |
| Genome.Encode | scheduler.py:302-322 | the encoding loop computes the encoder's specification |
| Genome.EncodeShape | scheduler.py:302-322 | a successful encoding has three genes per (group, course, instance) item, each triple encoding that item |
| RoundTrip.EncodeExtracted | scheduler.py:302-322 | encoding an extracted schedule succeeds; each triple points at the set variable of its item |
| RoundTrip.DecodeTriples | scheduler.py:324-362 | decoding such triples yields exactly the set variables' placements, item by item |
| RoundTrip.RoundTripHolds | scheduler.py:302-362 | decode(encode(extracted schedule)) succeeds and equals the extracted schedule |
| Operators.CutPoint | scheduler.py:431-432 | the cut is a multiple of 3, the largest not above the draw, below the length |
| Operators.SwapTailsTwice | scheduler.py:433-435 | swapping tails twice restores both parents |
| Operators.SwapTailsGenes | scheduler.py:433-435 | crossover preserves the combined multiset of genes |
| Operators.SwapTailsInRange | scheduler.py:431-435 | a cut on a triple boundary keeps every gene within its id list's range |
| Operators.Crossover | scheduler.py:427-437 | in place: equal lengths above 3 swap tails at the cut; anything else leaves both arrays unchanged |
| Operators.MutationIndex | scheduler.py:442-443 | the mutated gene is component c of triple p |
| Operators.MutateInRange | scheduler.py:444-449 | mutation keeps every gene within its id list's range |
| Operators.Mutate | scheduler.py:439-450 | in place: one gene is replaced, or nothing when there are fewer than 3 genes |
| Gaps.SlotIndices | scheduler.py:379-382 | slot indices in entry order; failure (KeyError) iff an entry's timeslot is unknown |
| Gaps.SortIndices | scheduler.py:384 | sorted and a permutation of its input |
| Gaps.GapsZero | scheduler.py:386-388 | the gap count is 0 iff no step between consecutive indices skips a slot |
| Gaps.GapsOfIncreasing | scheduler.py:386-388 | for strictly increasing indices, gaps = last − first − (n−1) |
| Gaps.GroupGapsOrderFree | scheduler.py:384 | a group's gap count depends only on the multiset of its indices |
| Gaps.GapTotalFails | scheduler.py:375-390 | the total fails iff some listed group has an entry with an unknown timeslot |
| Gaps.Score | scheduler.py:391 | the score is at most 100; it is 100 iff there are no gaps and 0 iff there are at least 20 |
| Gaps.GapScore | scheduler.py:373-391 | the gap score over the input's groups, at most 100, or the KeyError of an unknown timeslot |
| Gaps.EvaluateGaps | scheduler.py:373-391 | the scoring loop computes the gap score's specification |
| Timetables.OrderedDays | output_generator.py:39-47 | distinct; exactly the week days (Monday..Saturday) that occur in the timeslots |
| Timetables.OrderedDaysInWeekOrder | output_generator.py:41-47 | days come in week order |
| Timetables.OrderedTimes | output_generator.py:49-60 | distinct; exactly the times that occur; sorted by start time |
| Timetables.NewGenerator | output_generator.py:19-29 | the generator holds the ordered days and times |
| Timetables.ClassGrid | output_generator.py:62-97 | a group's grid: its entries, in dict order, painted onto a blank grid |
| Timetables.SheetGrid | output_generator.py:99-166 | a teacher's or room's grid: every group's entries for it, group by group, painted onto a blank grid |
| Timetables.ClassGridShows | output_generator.py:62-97 | a group's grid covers every (time, day) cell; a cell is non-empty iff one of the group's entries has a known timeslot at that cell |
| Timetables.ClassGridLast | output_generator.py:74-93 | of a group's entries falling on one cell, the last in dict order is shown: its key, its teacher's name and its room |
| Timetables.SheetGridShows | output_generator.py:99-166 | a teacher's or room's grid cell is non-empty iff some entry of that teacher or room falls in it |
| Timetables.PaintGroupsWritten | output_generator.py:109-127 | a written cell shows the content of one of the entries that target it |
| Timetables.GenerateClassTimetable | output_generator.py:62-97 | one grid per group id, each the class grid |
| Timetables.GenerateTeacherTimetable | output_generator.py:99-130 | one grid per teacher id, each that teacher's grid |
| Timetables.GenerateRoomTimetable | output_generator.py:132-166 | one grid per room id, each that room's grid |
| Statistics.Incr | output_generator.py:435 | `d.get(k, 0) + 1` raises k's count by one |
| Statistics.TallyCounts | output_generator.py:427-448 | each counter counts exactly the entries with that field value |
| Statistics.SummarySums | output_generator.py:413-452 | the total is the number of entries; each of the five counters sums to the total |
| Statistics.Summary | output_generator.py:413-452 | the statistics' specification: KeyError iff an entry's timeslot is unknown, otherwise the tallies over all entries |
| Statistics.TypesUnknown | output_generator.py:434-435 | with underscore-free course ids, every entry key misses `courses`, so all are counted as UNKNOWN |
| Statistics.CountEntriesKnown | output_generator.py:446-448 | a group's entries count without error iff every timeslot is known |
| Statistics.GroupFails | output_generator.py:446-448 | an unknown timeslot anywhere makes the whole statistics fail with KeyError |
| Statistics.GenerateSummaryStatistics | output_generator.py:413-452 | the statistics loop computes the summary's specification |
| InputParser.CommaList | input_parser.py:84-86 | stripped, non-empty items without commas; a missing cell gives [] |
| InputParser.CommaListOfJoin | input_parser.py:84-86 | parsing a comma-joined list of clean items gives the list back |
| InputParser.CourseRow | input_parser.py:63-70 | a course row succeeds iff its columns exist and Duration is empty or an integer; id, name and semester are the stripped cells, the type is the stripped cell upper-cased (no lower-case letter left), duration defaults to 1 |
| InputParser.CourseRowOfRecord | input_parser.py:63-70 | a trimmed, upper-case course record with a natural duration is read back unchanged from the row written from it |
| InputParser.TeacherRow | input_parser.py:79-100 | a teacher row succeeds iff its columns exist; id and name are the stripped cells; courses and availability are the comma lists |
| InputParser.RoomRow | input_parser.py:109-115 | a room row succeeds iff its columns exist and Capacity is empty or an integer; the id is the stripped cell, the type is the stripped cell lower-cased (no upper-case letter left), capacity defaults to 50 |
| InputParser.RoomRowOfRecord | input_parser.py:109-115 | a trimmed, lower-case room record with a natural capacity is read back unchanged from the row written from it |
| InputParser.TimeslotRow | input_parser.py:124-130 | id, day and time are the stripped cells; slot_index is the dict's size before the row |
| InputParser.GroupRow | input_parser.py:140-153 | id and semester are the stripped cells; group courses are the comma list |
| InputParser.MissingOfExact | input_parser.py:58-61 | the missing columns are exactly the required ones absent, in order; the sheet is rejected iff there are any |
| InputParser.LoadRows | input_parser.py:63-71 | the row loop: rows stored in order, each under its id, until the first row that fails; keys already there stay |
| InputParser.ReadSheet | input_parser.py:57-155 | missing columns give ValueError and no change; otherwise the rows are read in order |
| InputParser.LaterRowReplaces | input_parser.py:63-64 | a later row with the same id replaces the earlier value |
| InputParser.OneEntryPerId | input_parser.py:63-71 | the parsed dict holds exactly one entry per distinct id in the rows |
| InputParser.SlotIndicesInRowOrder | input_parser.py:124-130 | with distinct slot ids, slot_index numbers the slots 0, 1, 2, … in row order |
| InputParser.RepeatedSlotIdsShareAnIndex | input_parser.py:124-130 | a repeated slot id makes two slots share index 1 |
| InputParser.IssuesExact | input_parser.py:157-178 | each kind of issue is reported exactly when its condition holds |
| InputParser.NoIssuesIffConsistent | input_parser.py:157-185 | no issue iff every referenced course exists and every course has a teacher |
| InputParser.ParseBook | input_parser.py:18-54 | a sheet absent from the workbook leaves its dict unchanged |
| InputParser.InputParser.constructor | input_parser.py:10-16 | all five dicts start empty |
| InputParser.InputParser.ParseCourses | input_parser.py:57-72 | reads the Courses sheet into `courses` and changes no other dict |
| InputParser.InputParser.ParseTeachers | input_parser.py:74-102 | reads the Teachers sheet into `teachers` and changes no other dict |
| InputParser.InputParser.ParseRooms | input_parser.py:104-117 | reads the Rooms sheet into `rooms` and changes no other dict |
| InputParser.InputParser.ParseTimeslots | input_parser.py:119-133 | reads the Timeslots sheet into `timeslots` and changes no other dict |
| InputParser.InputParser.ParseGroups | input_parser.py:135-155 | reads the Groups sheet into `groups` and changes no other dict |
| InputParser.InputParser.ParseExcel | input_parser.py:18-54 | reads the present sheets in order and stops at the first error |
| InputParser.InputParser.HasTeacher | input_parser.py:174-175 | true iff some teacher handles the course |
| InputParser.InputParser.ValidateData | input_parser.py:157-185 | the messages are exactly the issues in pass order; empty iff the data are consistent |
| Text.StripIdempotent | input_parser.py:64 | stripping twice is stripping once |
| Text.Upper | input_parser.py:68 | `str.upper()` character by character: ASCII lower-case letters mapped to upper case, every other character kept |
| Text.Lower | input_parser.py:115 | `str.lower()` character by character: ASCII upper-case letters mapped to lower case, every other character kept |
| Text.TokensOfJoin | input_parser.py:86 | splitting a comma-joined list of clean items and dropping blanks gives the items |
| Text.ParseIntOfNatToString | input_parser.py:70 | `int(str(n)) == n` |

## Left out

- The CP-SAT solver and DEAP are external libraries.
  - The model states the constraints as `Constraints.Feasible` over the set of variables set to 1, and proves what extraction produces from any such set.
  - It does not search for that set. The solver's status and time limit are not modelled.
- `generate_schedule`, `_optimize_schedule` and `_evaluate_schedule` are not modelled. These are the GA driver: population, tournament selection, probabilities, cloning, logging and the best-of selection.
- `_evaluate_distribution` and `_evaluate_workload_balance` use floating-point averages and are not modelled. The same goes for the float weighting in `_evaluate_schedule`.
  - `Gaps.EvaluateGaps` returns the gap score as an integer. It equals the float the source returns, since every operand is an integer.
- Random draws (`random.randint` in crossover and mutation) are parameters.
  - The draws' ranges become `requires` clauses.
  - `randint` on an empty range cannot happen in either operator, since the length tests come first.
- Operators.Mutate: the new value must lie in its id list's range, which is what `randint(0, len-1)` draws. With an empty id list, `randint(0, -1)` raises ValueError; that case is excluded rather than modelled.
- Constraints.Extract: it labels every entry with the instance's own course id and uses that course's duration. The source takes both from `instance_key.split('_')[0]`. The two agree exactly when no course id contains '_' (Constraints.ExtractAsWrittenAgrees). The source's behaviour for other ids is modelled separately as Constraints.ExtractAsWritten, and Findings records the difference.
- Constraints.ExtractPlaces: it is stated for the corrected extraction. With a course id `a_b`, extraction as written raises KeyError when `a` is not a course (Constraints.ExtractAsWrittenRaises). When `a` is a course, it writes `a` and `a`'s duration (Constraints.WrittenPlacementMislabels), and parts can then share a key; the model does not state which entries survive in that case.
- Text.Upper and Text.Lower map only the ASCII letters. Python's `str.upper()` and `str.lower()` apply full Unicode case mapping: `'ß'.upper()` is `"SS"`, which changes the length, and `'İ'.lower()` is two code points. Type cells outside ASCII are therefore not modelled.
- Text.ParseInt accepts surrounding whitespace, an optional sign and ASCII digits. Python's `int()` also accepts '_' between digits ("1_000") and non-ASCII decimal digits; those cells are not modelled. A numeric cell that pandas hands over as a float (`2.0`) is modelled by its text, so `int()` truncating a float is not modelled either.
- Excel, HTML and PDF I/O, pandas, logging and colour schemes are not modelled.
  - A sheet is a list of rows mapping column names to optional strings; an empty cell is `None`.
  - A grid (pandas DataFrame) is a map from (time, day) cells to text.
  - `export_to_excel`, `export_to_html` and `export_to_pdf` are not part of this model.
- Teacher availability is parsed but never used by the scheduler, so no constraint mentions it.
- Course names are parsed but the grids do not use them. `course_name` in `generate_class_timetable` is computed and discarded, so it is left out.
- Timetables.SheetGridShows: it states which cells are filled, and PaintGroupsWritten states that a cell shows one of the entries targeting it. It does not state which one when several entries target a cell; in the source the last write in iteration order wins.
- Timetables.OrderedTimes: `list(set)` has no defined order, so times with equal start strings may come in any order. The model keeps first appearance, and the ensures states only the sort by start time.
- Candidate windows are sequences of slot ids, not '_'-joined strings.
  - The two agree when no slot id contains '_'.
  - A slot id containing '_' breaks `split('_')` in the source and is not modelled.
- RoundTrip.RoundTripHolds: it is proved under these premises:
  - the assignment is feasible;
  - every instance has at least one variable;
  - no course id contains '_';
  - no group lists a course twice or lists a missing course.

  Outside them the source's encoder keys on `course_id` prefixes and can mix instances, and these cases are not claimed.
- The candidate variables, the constraints and extraction are modelled for course durations of at least 1 only (`Candidates.PositiveDurations`). The source does not reject other durations, and behaves as follows.
  - Duration 0: every start position of every day writes the same window key '', so the instance has one window, '', in all. A course of frequency above 1 then fails in constraint 5, which looks up timeslot '' (KeyError). A course of frequency 1 passes, and a set variable for it is extracted as one entry with timeslot ''.
  - A negative duration gives no window, so its instances get no variable and are silently left unscheduled.
- The decoder is modelled for every duration, including 0 and negative ones: `Genome.DecodeGene` does not require positive durations, and `Genome.PySlice` follows Python's slicing with a negative stop (with duration -1 and start 0, `day_slots[0:-1]`). Only the window-length part of `Genome.DecodeGeneFacts` (a window of exactly the course's length, one of the candidate windows) assumes a duration of at least 1.
- The decoder does not re-check the constraints, and neither does the model. Decoded schedules after crossover or mutation are not claimed to be conflict-free.
- `Schedules.Apply` on a group missing from the schedule is not modelled. Every placement extraction and decoding write targets a group they created first.
- Nested Python loops are flattened into one sequence of candidates or items, in the same iteration order.

## Findings

| source | as written | input that shows it | evidently intended | confidence | as-written member | corrected member |
|---|---|---|---|---|---|---|
| scheduler.py:215-216 | extraction recovers the course id as `instance_key.split('_')[0]`, then looks up `self.courses[course_id]` | a group listing course "CS_101" with no course "CS": the key "CS_101_1" gives "CS", and the lookup raises KeyError; with a course "CS", its entries are labelled "CS" and keyed by CS's duration | the instance's own course id, as the comment on line 215 says, so that every set variable's entries carry its course and duration | not executed; medium (the source never restricts course ids to be '_'-free) | Constraints.ExtractAsWrittenRaises | Constraints.ExtractPlaces |
