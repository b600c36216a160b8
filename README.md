# Beam planning, modelled in Dafny

This project models a greedy planner that assigns beams from satellites to
ground users. It reads a scenario of satellites, users and foreign
("interferer") emitters. It builds a *visibility matrix* with one row per user
and one column per (satellite, colour) slot, four colours per satellite. Then
it walks the users in ascending order, giving each one the first available
slot of their row. After every assignment a *propagation* step runs:

- it closes, in the chosen slot's column, every user that is less than
  10 degrees from the new user as seen from the satellite;
- it closes every slot of a satellite once its 32nd beam is given out.

The result is printed as one `sat S beam B user U color C` line per beam.

Modules:

- `Geometry`: positions, the scenario, and the three angular tests that
  gate a beam. These are the visibility test (above 135 degrees at the user,
  between the earth's centre and the satellite), the interferer test (under
  20 degrees) and the self-interference test (under 10 degrees). The angle
  itself is a parameter.
- `VisibilityMatrix`: the matrix as an `array2`, the slot/column encoding,
  and the construction of the matrix, proved equal to a pure `InitialGrid`.
- `Propagation`: the propagation step on the array, proved equal, cell by
  cell, to `PropagateCell`.
- `Scheduler`: the greedy pass on the array, proved equal to the recursive
  function `Greedy`. About `Greedy` an invariant is proved: one beam per
  user, at most 32 beams per satellite, same-coloured beams of a satellite at
  least 10 degrees apart, every beam on a permitted (user, satellite) pair,
  first fit, no user left unserved while a slot is open to them, and the
  satellites keyed in the order of their first beams' users.
- `Output`: the report, and the fact that it lists exactly the beams of the
  assignment.
- `ScenarioReader`: the line-by-line scenario loader with Python's `split()`,
  `strip()` and `in` semantics, proved against a recursive `LoadFrom`; what
  a successful load holds is stated per identifier (present exactly when some
  line defines it, with the position from the last such line).

## Model

| member | source | states |
|---|---|---|
| Geometry.Visible | main.py:312-317 | definition: the angle at the user between the earth's centre and the satellite is strictly above 180 − 45 degrees |
| Geometry.Interferes | main.py:321-324 | definition: the angle at the user between the interferer and the satellite is strictly below 20 degrees |
| Geometry.SelfInterferes | main.py:198-202 | definition: the angle at the satellite between the new user and another user is strictly below 10 degrees |
| Geometry.Permitted | main.py:312-327 | definition: the satellite is visible and no interferer interferes |
| Geometry.AtThresholds | main.py:315 | exactly 135 degrees is not visible, an interferer at exactly 20 degrees and a neighbour at exactly 10 degrees do not count, and 160 degrees with no close interferer is permitted |
| VisibilityMatrix.Column | main.py:158 | the column of slot (satellite, colour) decodes back to that satellite and colour |
| VisibilityMatrix.SatOf | main.py:249 | the decoded satellite id is at least 1 |
| VisibilityMatrix.ColorOf | main.py:250 | the decoded colour is one of the four colours |
| VisibilityMatrix.ColumnDecode | main.py:249-250 | decoding a column and encoding it again gives the column back; a column is inside the matrix exactly when its satellite exists |
| VisibilityMatrix.ColumnsInRange | main.py:304 | every column of the matrix belongs to an existing satellite |
| VisibilityMatrix.SetUserBeam | main.py:153-158 | exactly the cell of (user, satellite, colour) takes the new state; every other cell is unchanged |
| VisibilityMatrix.InitialCell | main.py:308-332 | a starting cell is never in use, and it is available exactly when the satellite is visible to the user and no interferer is within 20 degrees |
| VisibilityMatrix.InitialGrid | main.py:290-334 | the matrix is users × (satellites · 4), has no cell in use, has a cell available exactly when its (user, satellite) pair is permitted, and gives all colours of one pair the same state |
| VisibilityMatrix.FindInterferer | main.py:319-327 | the scan reports a violation exactly when some interferer lies within 20 degrees of the user–satellite line |
| VisibilityMatrix.MarkAvailable | main.py:329-332 | all four colours of the (user, satellite) pair become available, and nothing else changes |
| VisibilityMatrix.GenerateVisibilityMatrix | main.py:290-334 | the new matrix has the right dimensions and equals `InitialGrid` |
| Propagation.PropagateCell | main.py:170-203 | the chosen cell goes into use; no other cell changes except from available to unavailable; nothing becomes available; a 32nd beam closes every slot of its satellite and touches no other satellite; otherwise only the chosen column changes, and a cell of it closes exactly when it was available and its user is within 10 degrees of the new user |
| Propagation.CloseSatellite | main.py:186-192 | in one row, every available cell of the satellite becomes unavailable, and nothing else changes |
| Propagation.UpdateVisibility | main.py:160-203 | every cell ends as `PropagateCell` of its old state; the whole matrix equals `Propagate` of the old matrix, the whole-matrix form of the step (each cell `PropagateCell` of its old state) in which `Scheduler.Assign` and `Scheduler.ServeUser` are stated |
| Scheduler.EmptySolution | main.py:231 | no satellite has a beam, and no satellite has been keyed yet |
| Scheduler.AppendBeam | main.py:252-257 | the beam is appended to its satellite's list and no other list changes; the satellite joins the key order exactly when its list was empty |
| Scheduler.FirstAvailable | main.py:245-248 | the result is the first available index of the row, or the row length when none is available |
| Scheduler.FirstAvailableUnique | main.py:245-248 | any index with the first-available property equals `FirstAvailable` |
| Scheduler.Assign | main.py:248-259 | the user's beam, with the column's colour, is appended to the column's satellite's list and no other list changes; the key order only grows; the chosen cell is in use |
| Scheduler.Greedy | main.py:243-260 | the scheduler from a given user on, as a function of the matrix and the assignment so far; it keeps the matrix users × (satellites · 4) and one list per satellite |
| Scheduler.GreedyExtends | main.py:252-257 | from any user on, every satellite's list and the key order only grow by extension |
| Scheduler.GreedyAssignStep | main.py:245-259 | a user whose first available column is `c` takes it, and the scheduler continues from the next user on the propagated matrix |
| Scheduler.InvInitially | main.py:231-238 | the scheduler invariant holds for the fresh matrix and the empty assignment |
| Scheduler.SkipKeepsInv | main.py:243-248 | a user with no available slot gets nothing, and the invariant moves past them |
| Scheduler.AppendKeepsRanges | main.py:252-258 | appending a new user to a satellite that is not full keeps users and colours in range and every list within 32 beams |
| Scheduler.AppendKeepsKeyOrder | main.py:252-253 | the key order keeps listing, once each, exactly the satellites with a non-empty list |
| Scheduler.KeyedFirstUser | main.py:252-257 | every keyed satellite has a non-empty list, so its first user is the user of its first beam |
| Scheduler.AppendFirstUser | main.py:252-257 | appending changes no satellite's first user, except that a satellite's first beam makes that beam's user its first user |
| Scheduler.AppendKeepsFirstBeamOrder | main.py:243-257 | when a user later than every one served so far is appended, the satellites in the key order stay sorted by the users of their first beams |
| Scheduler.AppendKeepsOneBeamPerUser | main.py:255-257 | a user not yet served appears exactly once after the append |
| Scheduler.StepKeepsSaturation | main.py:175-192 | every satellite with 32 beams has no available slot left, including the one that just filled up |
| Scheduler.StepKeepsHeld | main.py:170-203 | every assigned slot was available in the starting matrix and is in use now; cells only ever go from available to closed |
| Scheduler.StepKeepsExhausted | main.py:243-260 | every user served so far who still sees an available slot has a beam, now including the current user |
| Scheduler.StepKeepsFirstFit | main.py:245-248 | no slot before a user's assigned slot is available in that user's row |
| Scheduler.StepKeepsSeparation | main.py:194-203 | a new beam is at least 10 degrees from earlier beams of the same satellite and colour, and that slot is closed to every user closer than that |
| Scheduler.AssignKeepsInv | main.py:248-260 | one assignment and its propagation step keep the whole invariant |
| Scheduler.GreedyKeepsInv | main.py:243-260 | the invariant holds after the last user |
| Scheduler.PlanProperties | main.py:231-261 | the plan's lists are well formed; the key order lists the satellites with beams, each once, sorted by the users of their first beams; each user has at most one beam; no satellite has more than 32; same-coloured beams of a satellite are at least 10 degrees apart; every beam serves a permitted pair; any slot left available belongs to a user who has a beam; with no users the plan is empty |
| Scheduler.SingleUserPlan | main.py:240-260 | one satellite visible to one user, with no interferers, yields exactly beam (user 1, colour 0) on satellite 1 |
| Scheduler.FindFirstAvailable | main.py:245-248 | the scan returns the first available column of the row, or the row length |
| Scheduler.ServeUser | main.py:244-260 | when the user's row has an available column, the user's beam with that column's colour is appended to that column's satellite's list and the matrix becomes the propagated one; otherwise the assignment and matrix are unchanged; `Greedy` then continues from the next user exactly as it would have from before the turn |
| Scheduler.Schedule | main.py:240-260 | the final matrix and assignment are those of `Greedy` from the empty assignment |
| Scheduler.PlanBeams | main.py:231-261 | the assignment is `Greedy` over `InitialGrid`, with every property of `PlanProperties`: well-formed lists, a key order of the satellites with beams sorted by their first beams' users, one beam per user, at most 32 per satellite, separation, permitted pairs, an open slot only for a user who has a beam, and the empty plan for a scenario with no users |
| Scheduler.ColumnCountAsWritten | main.py:242 | reading the column count from the first row fails exactly when the matrix has no rows |
| Scheduler.NoUsersFailsAsWritten | main.py:241-242 | with no users, the column count as written fails |
| Output.ColorLetter | main.py:29 | a colour's letter is one of the first four capitals, and maps back to the colour |
| Output.SatLines | main.py:267-276 | a satellite's first `n` lines are, in order, its beams numbered 1 to `n` with their users and colour letters |
| Output.Report | main.py:264-276 | every report line names a keyed satellite and one of its beam numbers |
| Output.SatLinesMembership | main.py:267-276 | a line is among a satellite's lines exactly when it names one of that satellite's beams, numbered from 1, with its user and colour letter |
| Output.ReportMembership | main.py:264-276 | a line is in the report exactly when its satellite is keyed and it names that satellite's beam with its number, user and colour letter |
| Output.ReportDistinct | main.py:266-276 | when no satellite is keyed twice, no line of the report occurs twice |
| Output.ReportOfSolution | main.py:264-276 | for a well-keyed assignment, a line is in the report exactly when it describes an assigned beam, and no line occurs twice: one line per assigned beam |
| Output.SingleUserReport | main.py:264-276 | the one-satellite, one-user scenario reports the single line `sat 1 beam 1 user 1 color A` |
| Output.FormatSolution | main.py:264-277 | the lines produced are the report: satellites in key order, each one's beams in list order |
| ScenarioReader.WordLength | main.py:88 | the leading word has no whitespace, is followed by whitespace or the end, and is non-empty when the text starts with a non-space |
| ScenarioReader.Split | main.py:88 | every token is non-empty and contains no whitespace |
| ScenarioReader.IsBlank | main.py:123 | definition of `line.strip() == ""`: every character is whitespace |
| ScenarioReader.Contains | main.py:119 | `pat in s` holds exactly when `pat` occurs at some index of `s` |
| ScenarioReader.BlankIffNoWords | main.py:123 | a line strips to the empty string exactly when it has no token |
| ScenarioReader.SplitJoin | main.py:88 | splitting tokens joined by single spaces gives the tokens back |
| ScenarioReader.ParseObject | main.py:88-103 | a line yields an object exactly when its first token is the keyword, it has five tokens and all three coordinates parse; the object is the second token with those coordinates |
| ScenarioReader.WordLengthTrailing | main.py:88 | whitespace appended to a text does not change the length of its first token |
| ScenarioReader.SplitTrailing | main.py:88 | whitespace appended to a text, such as the newline `readlines` keeps, does not change its tokens |
| ScenarioReader.NewlineIsBlank | main.py:114 | the line ending `readlines` keeps in text mode, `"\n"`, is whitespace |
| ScenarioReader.ParseObjectLine | main.py:81-103 | a line written as keyword, identifier and three coordinates, followed by any whitespace ending such as the newline `readlines` keeps, has those five tokens and reads back as that identifier and position |
| ScenarioReader.ReadObject | main.py:81-103 | succeeds exactly when `ParseObject` does; on success the table gains or replaces that identifier's entry, on failure it is unchanged |
| ScenarioReader.Classify | main.py:119-144 | a line is a comment exactly when it contains `#`; it is blank exactly when it has no `#` and no token; the keywords are tried in turn: a line is an interferer exactly when it has a token, no `#` and contains "interferer", a satellite exactly when it also lacks "interferer" but contains "sat", a user exactly when it also lacks both but contains "user"; a dispatched line contains its kind's keyword; a line is invalid exactly when it has a token but neither `#` nor any keyword |
| ScenarioReader.LoadFrom | main.py:118-146 | loading the remaining lines only adds or replaces table entries, never removes one |
| ScenarioReader.DefinesInTail | main.py:118-144 | a line of the rest defines an entry exactly when the same line, one position later, does in the whole file |
| ScenarioReader.LoadStep | main.py:118-144 | a successful load has no invalid line, and is the load of the rest on top of the tables with the first line's entry, if it has one, written in |
| ScenarioReader.LoadKeys | main.py:118-146 | after a successful load, an identifier is in a table exactly when it was there before or some line of that kind parses to it |
| ScenarioReader.LoadValues | main.py:118-146 | after a successful load, an identifier maps to the position on the last line of its kind that defines it, or keeps its earlier position when no line does |
| ScenarioReader.LoadSucceedsIff | main.py:118-146 | loading succeeds exactly when every line is a comment, a blank line, or a well-formed object line of the kind it is dispatched to |
| ScenarioReader.ReadScenario | main.py:106-146 | the reader succeeds exactly when `LoadFrom` does, and then returns the tables `LoadFrom` builds |

## Left out

- The angle computation (`calculate_angle_degrees`: normalised dot product, clamping and arccosine) and `calculate_distance`. These are floating-point numerics, and the model takes the angle as a parameter. Their division by zero for coincident points is not modelled.
- Float parsing: Python's `float` is the parameter `parseFloat`.
- File and console I/O: `open(...).readlines()`, every `print`, the usage message, and `main`'s argument handling. The reader takes the file's lines as a sequence. The report is a sequence of `OutputLine` values instead of text. `matrix_printer` is debugging output.
- The conversion between the loader's string-keyed tables and the dense scenario (`int(id) - 1` at main.py:330-331, `str(i + 1)` at main.py:172 and 198, `str(sat_id)` at main.py:199). The model takes satellites and users with ids `1..n`, the object of id `k` at index `k - 1`. For other ids the program does not simply fail. `int` accepts forms such as `01`, and for an id of `0` the index `int(id) - 1` is negative, so Python's negative indexing writes the last user's row or the last satellite's columns instead; a later `str(...)` lookup may then raise KeyError, or may never run. None of this is modelled. Interferer ids are only iterated over, so any id works for them; the model keeps interferers as a sequence.
- The unused constants `speed_of_light_km_s` and `valid_beam_ids`.
- `runner.py` and `setup.py`, the packaging and driver scripts. They are not part of this model.
- `Scheduler.ServeUser` computes the satellite id with integer division. The program writes `floor(c / 4) + 1`, a float division, which is exact for matrix-sized indices.
- `ScenarioReader.ReadScenario` says nothing about the tables it returns on failure. The program leaves them partly filled, and its caller discards them.
- `ScenarioReader.ReadObject` returns the updated table instead of updating the caller's dictionary in place.
- `ScenarioReader.IsSpace` follows Python's `str.isspace` for the characters it lists.

## Findings

| source | as written | input that shows it | evidently intended | confidence | as-written member | corrected member |
|---|---|---|---|---|---|---|
| main.py:242 | the column count is read as `len(v[0])`, the length of the matrix's first row | a scenario with satellites but no user lines: the matrix has no rows and the lookup raises IndexError | an empty assignment and an empty report | not executed | Scheduler.NoUsersFailsAsWritten | Scheduler.PlanBeams |
