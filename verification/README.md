# A verified model of the redux core algorithms

This project models the algorithmic core of redux, a toolkit for the reduction of solar images, and
proves what that core is for. It has six parts.

* **The work scheduler of the daemon** (`SchedulerState`, `SchedulerPlaces`, `SchedulerCounters`,
  `SchedulerMoves`, `SchedulerFaults`, `SchedulerRefusals`, `SchedulerReturns`, `Daemon`). A state
  machine with one action per critical section or counter update, over any number of threads in any
  interleaving. `SchedulerState` has the steps, `SchedulerPlaces` proves where work objects can be,
  `SchedulerCounters` what the counters and queues can be, `SchedulerFaults` when shutdown hangs,
  `SchedulerRefusals` when a result is lost, `SchedulerReturns` when a return may be taken as one
  step, and `Daemon` proves that the daemon's own methods and its cleanup pass make these steps.
* **The shape-preserving Bezier interpolators** (`BezierMath`, `Bezier`, `BezierForms`): limited
  derivatives, the cubic and the quadratic form, extrapolation, and the array loops.
* **The printer and parser of number and mode lists** (`Text`, `Ranges`, `VectorText`,
  `VectorExact`, `VectorForms`, `VectorCode`, `ModeText`, `ModeExact`, `ModeForms`, `ModeCode`): the
  text of runs, segments and lists, and when reading undoes printing.
* **The serializer** (`Bytes`, `StructDefs`, `StringPaths`, `StructCode`, `Variables`, `Cache`,
  `PackedForms`): size, pack and unpack passes over recursive structure definitions and variables,
  and the cache file.
* **Grid matching and resampling** (`Residual`, `ResidualForms`, `ResidualCode`, `Minimum`, `Match`,
  `MatchPaths`, `Resample`, `ResampleForms`): the residual with and without its static cache, the
  3x3 descent with a shifted memo table, the sub-pixel fit, the bilinear stretch, and congrid.
* **Key-point pairing** (`Keypoints`): nearest pairs, and a greedy filter that is stable.

`RealMath` holds facts about products and quotients, `Wrappers` the type of missing values,
`Integers` the 32-bit integer. Each part has a specification, the theorems about it, and the
source's loops proved to compute it; the modules named `...Forms`, `MatchPaths`, `StringPaths` and
`SchedulerMoves` say what the specifications mean without using them. `dafny verify dfyconfig.toml`
checks the whole project. `double` and `float` are modelled by `real`, integers by `int` with the
source's widths written out where they matter.

Some promises are not kept by the code, and the exact condition is proved instead:

* A run of three equal values is printed with step 0 and makes the parser loop for ever, and a
  falling run in 16-bit words is read back wrongly (`RunsReadBackExactly`, `RoundTripExactly`,
  `SmallRoundTripExactly`, `ModesRoundTripExactly`, `FallingRunsOf16Bits`).
* The quadratic interpolant leaves its data on unequally spaced knots (`QuadraticBetweenTheData`,
  `MonotoneExactly`, `QuadraticCanOvershoot`).
* A preparer thread that cannot be started leaves its tickets in the counter that shutdown waits
  for, and the wait never ends (`ShutdownWaitEnds`, `ShutdownHangs`, `StuckShutdown`).
* Units in progress are compared by job only, so a second unit of a job is not tracked while the
  first is active, and its result is lost (`AllTrackedExactly`, `RefusedResultsAreMissing`,
  `OneResultOfTwo`, `ALostResult`).
* Two returns that look up the same unit before either erases it complete it twice
  (`NoRaceIsAtomic`, `FirstRaceDuplicates`, `ARace`).
* A structure tag with eight dimensions is packed and cannot be unpacked (`DecodeEncode`,
  `EightDimsOverflow`), and arrays of two gigabytes are sized wrongly (`SizeExactly`,
  `CacheSizeExactly`, `CacheStore`).
* The residual with a static cache trusts sums of other weights, and zero initial values
  (`CacheIsTransparentExactly`, `SessionIsTransparentExactly`, `FreshCacheMissesTheCorner`).
* Which key points are paired depends on how the sort orders ties (`SortMattersExactly`,
  `TiesCanMatter`).

## Model

| member | source | states |
|---|---|---|
| `SchedulerPlaces.EveryObjectInOnePlace` | src/lib/daemon.cpp:1863-2018 | In every state of every interleaving of reserver, preparers, loaders, senders, receivers, worker and reaper, a work object found in two places (idle pool, active set, either queue, completed list, a host's entry, a variable of a running thread) is in the same place: nothing is shared or handed out twice |
| `SchedulerPlaces.QueuesHaveNoDuplicates` | src/lib/daemon.cpp:2074-2093 | ... and no queue, nor the completed list, holds an object twice |
| `SchedulerPlaces.OneActiveUnitPerJob` | src/lib/work.cpp:235-247 | Because units are ordered by job alone, the active set never holds two units of one job, in any reachable state |
| `SchedulerPlaces.StepKeepsPlaces` | src/lib/daemon.cpp:1514-1622 | Every single step of the protocol keeps the invariant that gives each object its only place |
| `SchedulerPlaces.ReturnKeeps` | src/lib/daemon.cpp:1997-2018 | Taking a unit back moves the matching active object to the completed list or the idle pool, disturbs no object outside the active set, and keeps the invariant |
| `SchedulerCounters.TicketsAreAccountedFor` | src/lib/daemon.cpp:2091-2099 | In every reachable state the 16-bit counter of units in preparation equals the unspent tickets of live preparers plus live loaders plus tickets lost to threads that could not be started; it neither underflows nor wraps, through failed loads and early exits |
| `SchedulerFaults.LeakedExactly` | src/lib/daemon.cpp:2195-2201 | In every run, tickets of a lane are lost if and only if a preparer of that lane failed to start |
| `SchedulerFaults.ShutdownWaitEnds` | src/lib/daemon.cpp:327-329 | In any run, once all preparers and loaders of a lane are gone, the counter the shutdown loop waits for is zero if and only if no earlier step was a failed start of a preparer of that lane |
| `SchedulerFaults.ShutdownHangs` | src/lib/daemon.cpp:327-329 | After a failed start the counter is positive in every later state: the wait never ends |
| `SchedulerFaults.StuckShutdown` | src/lib/daemon.cpp:2195-2201 | A concrete run in which no thread is left and fifty tickets are |
| `SchedulerCounters.NothingLeaks` | src/lib/daemon.cpp:2188-2198 | If no preparer fails to start, no ticket is ever lost |
| `SchedulerCounters.LeakedOnlyByFailedStarts` | src/lib/daemon.cpp:2197-2201 | A step other than a failed thread start loses no ticket |
| `SchedulerCounters.QueuesAreBounded` | src/lib/daemon.cpp:2173-2204 | In every reachable state each queue is at most as long as the largest limit ever set, and at most one local unit is in preparation |
| `SchedulerCounters.QueuesStayWithinLimits` | src/lib/daemon.cpp:2183-2194 | With limits that are fixed, or never lowered, each queue stays within its current limit over the whole run |
| `SchedulerCounters.StepKeepsCounters` | src/lib/daemon.cpp:2105-2170 | Every step keeps: queue length plus preparing minus pushes not yet released is within the limit, the counter is the sum of tickets, and hand-outs balance |
| `SchedulerCounters.HandoutsAreConserved` | src/lib/daemon.cpp:1962-2018 | Over any run, units handed out equal those active, completed, recycled without results, and refused by the active set; so completed results never outnumber hand-outs |
| `SchedulerRefusals.UntrackedAreTheRefused` | src/lib/daemon.cpp:1863-1870 | In every state of every run, the number of untracked hand-outs is the number of hand-out steps taken while an active unit had the key of the popped one |
| `SchedulerRefusals.AllTrackedExactly` | src/lib/daemon.cpp:1873-1878 | Every unit handed out was tracked if and only if none was handed out while its job was active |
| `SchedulerRefusals.RefusedResultsAreMissing` | src/lib/daemon.cpp:1962-2018 | In every run, completed results and refusals together do not exceed hand-outs: each refusal is a result that never arrives |
| `SchedulerRefusals.SecondReturnChangesNothing` | src/lib/daemon.cpp:1997-2018 | Of two returns with one key the second changes nothing, whatever either carries |
| `SchedulerRefusals.OneResultOfTwo` | src/lib/daemon.cpp:1962-2018 | Two units of a job handed out, and both returned with results: one is untracked, and the completed list grows by one |
| `SchedulerRefusals.ALostResult` | src/lib/daemon.cpp:1514-1608 | A concrete run: two hosts work on one job, both return results, and one result is completed |
| `SchedulerReturns.NoRaceIsAtomic` | src/lib/daemon.cpp:2000-2002 | With lookup and erasure as two steps and anything in between: in a run where no lookup finds a unit that another return has found already, every state is a state of the protocol with atomic returns |
| `SchedulerReturns.NoRaceNoDuplicates` | src/lib/daemon.cpp:1997-2018 | ... so no object is in two places and none is completed twice |
| `SchedulerReturns.FirstRaceDuplicates` | src/lib/daemon.cpp:2000-2011 | The first such lookup of a run is enough: both returns can finish, and the completed list then has the unit twice |
| `SchedulerReturns.ARace` | src/lib/daemon.cpp:1889-1898 | A concrete run that ends in such a lookup |
| `SchedulerReturns.LateReturnsChangeNothing` | src/lib/daemon.cpp:1997-2018 | In any run, after a unit of a job was returned, returning that job again changes no container until another of its units is handed out |
| `SchedulerMoves.ReturnMoves` | src/lib/daemon.cpp:1997-2018 | Container by container: a return takes the active unit with the key, and puts it at the front or the end of the completed list with the returned key, or into the idle pool without one; nothing else changes |
| `SchedulerMoves.ActivateMoves` | src/lib/daemon.cpp:1863-1870 | The active set takes a unit if and only if no active unit has its key |
| `SchedulerMoves.IdleMoves` | src/lib/daemon.cpp:1901-1931 | Taking, making and pooling objects: what changes, and that all other keys stay |
| `SchedulerMoves.CopyMoves` | src/lib/daemon.cpp:1479-1489 | Copying a job and making the entry of a host: what changes, and that all other keys stay |
| `SchedulerMoves.StepShifts` | src/lib/daemon.cpp:2152-2153 | A step adds at most one unit to a queue, at its end and only as a loader pushes, or takes the first one |
| `SchedulerMoves.FirstInFirstOut` | src/lib/daemon.cpp:1934-1959 | Over any stretch of any run each queue is first in, first out |
| `Daemon.Daemon.constructor` | include/redux/daemon.hpp:123-130 | A new daemon has empty containers: the state every run starts from |
| `Daemon.Daemon.GetIdleWip` | src/lib/daemon.cpp:1901-1922 | A pooled object leaves the pool, or a new one is made if the pool is empty |
| `Daemon.Daemon.PutIdleWip` | src/lib/daemon.cpp:1925-1931 | The object forgets its job and is pooled |
| `Daemon.Daemon.GetRemoteWip` | src/lib/daemon.cpp:1947-1959 | Removes and returns the first unit of the remote queue, or nothing |
| `Daemon.Daemon.GetLocalWip` | src/lib/daemon.cpp:1934-1944 | Removes and returns the first unit of the local queue, or nothing |
| `Daemon.Daemon.GetActiveWip` | src/lib/daemon.cpp:1889-1898 | Finds the active unit with the same key if and only if there is one |
| `Daemon.Daemon.PutActiveWip` | src/lib/daemon.cpp:1863-1870 | Inserts the unit unless an equivalent one is active; keys stay unique |
| `Daemon.Daemon.Activate` | src/lib/daemon.cpp:1975-1989 | The caller's, a pooled or a new object becomes a copy and the unit itself becomes active: exactly the hand-out step of the protocol |
| `Daemon.HandOutMoves` | src/lib/daemon.cpp:1987-1989 | A hand-out gives the copy the key of the unit, leaves all other keys, and makes the unit active unless its key is |
| `Daemon.Daemon.GetWork` | src/lib/daemon.cpp:1962-1994 | Pops the right queue only, hands out its first unit, fails exactly on an empty queue with nothing changed, and keeps the containers apart |
| `Daemon.Daemon.ReturnWork` | src/lib/daemon.cpp:1997-2018 | Makes the return step of the protocol: with results, remote units go to the end of the completed list and local ones to its front, otherwise to the idle pool; without a match nothing changes; the containers stay apart |
| `Daemon.Daemon.GetWip` | src/lib/daemon.cpp:1479-1489 | A host's entry, made on first contact |
| `Daemon.Daemon.ReserveRemote` | src/lib/daemon.cpp:2193-2199 | After the round, queued units and units in preparation fill the remote limit exactly, unless they exceeded it before, and then no ticket is taken |
| `Daemon.Daemon.ReserveLocal` | src/lib/daemon.cpp:2181-2190 | A ticket is taken only if it is the only one out and its unit has room in the queue; none is taken only if one is out or the queue is full |
| `Daemon.ReapPeers` | src/lib/daemon.cpp:668-700 | In times: an entry is left if and only if its unit has a job, was started no longer ago than that job allows, and its host was seen no longer ago than hosts may be silent; the pass collects exactly the units of live jobs that hit one or both timeouts, each once, and drops entries of dead jobs without failing them |
| `Daemon.TimesExactly` | src/lib/daemon.cpp:676-690 | What stays and what fails, as inequalities on the clock |
| `Daemon.LaterKeepsFewer` | src/lib/daemon.cpp:677-690 | Waiting longer never lets more entries stay nor fewer units fail |
| `Daemon.EverySilentUnitFails` | src/lib/daemon.cpp:677-690 | At some later time every entry with a live job and a time to measure fails |
| `Daemon.Examine` | src/lib/daemon.cpp:675-697 | One entry: it stays exactly if it should, and is pushed once as a unit, with at most a null after it |
| `Daemon.ReapIsAStep` | src/lib/daemon.cpp:695-700 | The pass, with the failing of the units it collects and the reset of their jobs, is one reaping step of the protocol, so all invariants above survive it |
| `BezierMath.Lambda` | src/dlm/rdx.cpp:67-67 | The blend weight lies strictly between one third and two thirds, and is one half on equal widths |
| `BezierMath.MeanBound` | src/dlm/rdx.cpp:66-69 | The weighted harmonic mean of two positive slopes is positive and below each slope over its weight |
| `BezierMath.LimitedBound` | src/dlm/rdx.cpp:62-74 | The limited derivative has the sign of the data and is at most three times either slope, at most twice on equal widths |
| `BezierMath.CubicRises` | src/dlm/rdx.cpp:191-203 | A cubic segment with both control values between its end values rises over the whole interval |
| `BezierMath.QuadraticEscapes` | src/dlm/rdx.cpp:120-131 | A quadratic segment whose control value is not between its ends leaves them somewhere |
| `BezierMath.MiddleWithin` | src/dlm/rdx.cpp:122-122 | The quadratic control value is between the data if and only if the end derivatives differ by at most twice the slope |
| `Bezier.DerivativeBound` | src/dlm/rdx.cpp:53-78 | Every derivative, the ends included, is limited by three times (two times on equal spacing) the slope of either adjacent interval |
| `Bezier.ControlsWithin` | src/dlm/rdx.cpp:192-194 | Both cubic control values lie between the data of their interval |
| `Bezier.SegmentFollowsData` | src/dlm/rdx.cpp:196-202 | A segment with its controls between the data moves in the direction of its data throughout |
| `Bezier.ThroughTheData` | src/dlm/rdx.cpp:197-218 | Both interpolants take the tabulated value at every knot, the last one included |
| `Bezier.CubicBetweenTheData` | src/dlm/rdx.cpp:191-203 | For arbitrary data, bezier3 at any point between two knots lies between their two values |
| `Bezier.QuadraticBetweenTheData` | src/dlm/rdx.cpp:120-131 | bezier2 stays between the data of an interval if and only if the two derivatives there differ by at most twice its slope |
| `Bezier.EquallySpacedTame` | src/dlm/rdx.cpp:120-131 | ... which holds of every interval of equally spaced knots |
| `Bezier.QuadraticCanOvershoot` | src/dlm/rdx.cpp:120-131 | A concrete table, rising and unequally spaced, on which bezier2 leaves the data |
| `Bezier.MonotoneEverywhere` | src/dlm/rdx.cpp:87-228 | For nondecreasing data the interpolant is nondecreasing over the whole line, within intervals, across knots, and into both extrapolations, wherever controls are between the data |
| `Bezier.MonotoneExactly` | src/dlm/rdx.cpp:87-228 | For nondecreasing data the interpolant is nondecreasing over the whole line if and only if every segment has its control values between the data |
| `Bezier.CubicMonotoneEverywhere` | src/dlm/rdx.cpp:158-228 | bezier3 is nondecreasing over the whole line for every nondecreasing table |
| `Bezier.QuadraticMonotoneEverywhere` | src/dlm/rdx.cpp:87-156 | bezier2 is nondecreasing over the whole line for nondecreasing data on equally spaced knots |
| `Bezier.CubicFallsEverywhere` | src/dlm/rdx.cpp:158-228 | bezier3 is nonincreasing over the whole line for every nonincreasing table |
| `Bezier.LinesAreReproduced` | src/dlm/rdx.cpp:87-228 | Data on a straight line give that line everywhere, in both forms |
| `Bezier.MirrorSymmetry` | src/dlm/rdx.cpp:167-178 | Reversing a table and the sign of its abscissae gives the mirrored curve |
| `BezierForms.DerivativeExactly` | src/dlm/rdx.cpp:53-78 | The derivative without weights or divisions: end slopes at the ends, zero at an extremum, and otherwise the harmonic mean in which the width of the other interval counts twice |
| `BezierForms.CubicExactly` | src/dlm/rdx.cpp:191-203 | Between two knots bezier3 is the cubic with the tabulated values and the derivatives of those knots at both ends (Hermite form), so the curve is smooth |
| `BezierForms.QuadraticExactly` | src/dlm/rdx.cpp:120-131 | Between two knots bezier2 is the parabola through both values whose end slopes are the slope of the data plus and minus half the difference of the derivatives |
| `BezierForms.OutsideExactly` | src/dlm/rdx.cpp:208-219 | Outside, both are the lines through the first two and the last two knots |
| `BezierForms.ThroughTheGivenData` | src/dlm/rdx.cpp:167-178 | For tables given in rising or falling order, the curve goes through the points as given |
| `Bezier.CentralDerivative` | src/dlm/rdx.cpp:53-78 | The loop that carries slope and width fills every entry with the limited derivative |
| `Bezier.SetUp` | src/dlm/rdx.cpp:167-178 | A falling table is turned round in fresh arrays, a rising one used as it is |
| `Bezier.CubicPass` | src/dlm/rdx.cpp:191-203 | The double loop writes the interpolant into the slot of every query below the last knot and not below the first |
| `Bezier.QuadraticPass` | src/dlm/rdx.cpp:120-131 | The same for the quadratic form |
| `Bezier.Extrapolate` | src/dlm/rdx.cpp:208-219 | After the out-of-range pass every slot of the output holds the interpolant at its query |
| `Bezier.Bezier3` | src/dlm/rdx.cpp:158-228 | Every output slot is written, with the interpolant of the table turned upright, for rising and falling abscissae |
| `Bezier.Bezier2` | src/dlm/rdx.cpp:87-156 | The same for the quadratic form |
| `Text.DecimalRoundTrip` | include/redux/translators.hpp:247-251 | Reading the digits of a printed number gives the number |
| `Text.CastSignedDecimal` | include/redux/translators.hpp:185-185 | A printed negative step is cast to the unsigned type as its wrap-around |
| `Text.SignsAreRead` | include/redux/translators.hpp:172-173 | A plus sign does not count, and a minus sign takes the number from the modulus |
| `Text.SplitJoin` | include/redux/translators.hpp:209-209 | Splitting comma-joined tokens gives the tokens back |
| `Ranges.ExpandExactly` | include/redux/translators.hpp:193-196 | The push loop ends with the values v if and only if v is a complete execution of it in wrapping arithmetic; otherwise it runs for ever |
| `Ranges.ReadBackCases` | include/redux/translators.hpp:181-198 | What a printed run expands to, with exchanged bounds and a reversal for falling runs |
| `Ranges.RunsReadBackExactly` | include/redux/translators.hpp:181-198 | A run the printer detects reads back as itself if and only if it is a true progression with a nonzero step that fits an int, room above its largest element, and no falling step in 16 bits |
| `VectorText.Extend` | include/redux/translators.hpp:239-245 | The run the printer counts is one whose elements follow by wrapping addition of the first step |
| `VectorText.CutsAreProper` | include/redux/translators.hpp:231-259 | The printer cuts a vector into single elements and detected runs only |
| `VectorText.ParseToken` | include/redux/translators.hpp:164-199 | Parsing a printed segment is expanding its first element, step and last element |
| `VectorText.SegmentsRoundTripExactly` | include/redux/translators.hpp:164-199 | A printed segment parses back to itself if and only if it is a single element or a sound run |
| `VectorText.RoundTrip` | include/redux/translators.hpp:205-267 | get_value after put_value is the identity for all vectors of 16-, 32- or 64-bit words all of whose detected runs are sound |
| `VectorExact.RoundTripExactly` | include/redux/translators.hpp:205-267 | For all vectors of 16-, 32- and 64-bit words, get_value after put_value is the identity if and only if every detected run is sound |
| `VectorExact.NeverBack` | include/redux/translators.hpp:193-196 | A push loop that ends never returns to its first value |
| `VectorExact.NeverAhead` | include/redux/translators.hpp:231-259 | What is read back never gets ahead of what was printed, part by part |
| `VectorExact.NeverCatchesUp` | include/redux/translators.hpp:187-197 | A falling run that is read to its own end was read from its own start: runs that read back wrongly cannot make up for each other |
| `VectorExact.CutsStop` | include/redux/translators.hpp:239-255 | The printer is greedy: after a run comes something else than its next element, and a single element starts no run |
| `VectorText.SmallRoundTripExactly` | include/redux/translators.hpp:205-267 | For 32- and 64-bit words below 2^31 the result is exactly: the vector, if no printed run is constant, and otherwise no termination |
| `VectorText.SmallRoundTrip` | include/redux/translators.hpp:205-267 | The round trip holds for all such vectors without three equal elements in a row, whatever rising, stepped and falling runs they have |
| `VectorText.ConstantRunDiverges` | include/redux/translators.hpp:193-196 | A printed run of equal elements makes the parser loop for ever, at every width and value |
| `VectorText.FallingRunsOf16Bits` | include/redux/translators.hpp:185-190 | In 16-bit words 9, 6, 3 reads back as 0, 3 |
| `VectorForms.DecimalDigits` | include/redux/translators.hpp:247-251 | Digit by digit: the last one for the ones, and no zero in front |
| `VectorForms.RunIsPrinted` | include/redux/translators.hpp:246-251 | A run is printed as first, dash, last if it counts up by one, and as first, step, last between colons otherwise |
| `VectorForms.CountingUpIsPrinted` | include/redux/translators.hpp:246-251 | Three or more consecutive numbers are printed as a range |
| `VectorForms.ElementsArePrinted` | include/redux/translators.hpp:252-256 | A vector in which no three elements form a run is printed as its elements between commas |
| `VectorForms.TakenExactly` | include/redux/translators.hpp:239-255 | What is printed as one segment is the longest run at the front, or one element if there is none |
| `VectorForms.PrintedInTurn` | include/redux/translators.hpp:231-257 | Segments are printed one after the other with a comma between them |
| `VectorForms.RangeExactly` | include/redux/translators.hpp:181-198 | A range with a positive step is read upward, and the same range given in falling order downward |
| `VectorForms.UnitRangeExactly` | include/redux/translators.hpp:170-180 | Two numbers with a dash between them are all numbers from the one to the other, in that order; at the largest word the loop does not end |
| `VectorForms.DashIsColon` | include/redux/translators.hpp:170-180 | Between two numbers a colon is the same as a dash |
| `VectorForms.NumberExactly` | include/redux/translators.hpp:167-169 | A number by itself is read if it fits the words and rejected otherwise |
| `VectorForms.ListsAreJoined` | include/redux/translators.hpp:205-217 | Lists with a comma or a space between them are read one after the other, and empty tokens do not count |
| `VectorCode.RunLength` | include/redux/translators.hpp:241-245 | The counting loop ends where the run does |
| `VectorCode.NextSegment` | include/redux/translators.hpp:233-257 | One round of the printer: the text of the next segment and where the next one starts |
| `VectorCode.PutValue` | include/redux/translators.hpp:226-267 | The printing loop produces the specified text |
| `VectorCode.PushRange` | include/redux/translators.hpp:193-196 | The push loop, where it ends, produces the specified values |
| `VectorCode.ExpandRange` | include/redux/translators.hpp:187-197 | Exchange, absolute step, loop and reversal together produce the specified range |
| `VectorCode.SegmentCode` | include/redux/translators.hpp:164-199 | The segment parser, wherever it ends, gives the specified outcome, bad text included |
| `VectorCode.GetValue` | include/redux/translators.hpp:205-223 | The parser, wherever it ends, gives the specified outcome for every string, skipping empty tokens |
| `ModeText.ModesRoundTrip` | include/redux/translators.hpp:463-525 | Parsing a printed mode list gives the same modes with each type replaced by the one its letter stands for, if all its runs are sound |
| `ModeExact.ModesRoundTripExactly` | include/redux/translators.hpp:463-525 | Where neighbours of different types have different letters, the round trip gives the same modes, with the types their letters stand for, if and only if all detected runs are sound |
| `ModeExact.UsualLettersTell` | include/redux/translators.hpp:516-519 | Of lists of Zernike and Karhunen-Loeve modes that is always true, whatever the default type |
| `ModeExact.UnsoundCanCancel` | include/redux/translators.hpp:411-525 | A concrete list, of types that share a letter, whose three unsound runs add up to the right numbers |
| `ModeExact.ModePartStops` | include/redux/translators.hpp:492-512 | Each printed segment of a mode list stops where its run ends or the type changes |
| `ModeForms.SegmentIsPrinted` | include/redux/translators.hpp:516-520 | A segment is printed as its numbers are, after a K for Karhunen-Loeve modes and a Z for all others, except for the default type |
| `ModeForms.ModesTakenExactly` | include/redux/translators.hpp:486-512 | A segment is what the number printer takes of the elements before the first other type |
| `ModeForms.ModesPrintedInTurn` | include/redux/translators.hpp:483-521 | Segments are printed one after the other with a comma between them |
| `ModeForms.LettersAreRead` | include/redux/translators.hpp:416-426 | A letter, small or large and anywhere in a segment, gives its type; without one there is none |
| `ModeForms.ConflictIsRejected` | include/redux/translators.hpp:418-422 | Letters of both types are rejected |
| `ModeForms.ModeListsAreJoined` | include/redux/translators.hpp:463-473 | Lists with a comma between them are read one after the other |
| `ModeText.TypesRoundTripExactly` | include/redux/translators.hpp:516-519 | After the default type is applied the list is the printed one if and only if each of its types can be expressed |
| `ModeText.RisingModesRoundTrip` | include/redux/translators.hpp:463-525 | Every strictly rising list of Zernike and Karhunen-Loeve modes below 2^15 survives the round trip, unchanged at once when there is no default type |
| `ModeText.ParseModeToken` | include/redux/translators.hpp:411-459 | A printed segment of one type is read back with its letter's type |
| `ModeText.ModePrintEnds` | include/redux/translators.hpp:523-523 | The printed list ends in a digit, so removing a final comma removes nothing of it |
| `ModeText.ModeRunLength` | include/redux/translators.hpp:495-501 | A run never crosses a change of type |
| `ModeText.NextModes` | include/redux/translators.hpp:486-515 | One round of the printer |
| `ModeText.PutModes` | include/redux/translators.hpp:476-525 | The printing loop produces the specified text for every nonempty list |
| `ModeCode.StripLetters` | include/redux/translators.hpp:426-426 | Removes exactly the type letters |
| `ModeCode.ModeSegment` | include/redux/translators.hpp:411-459 | The segment parser, wherever it ends, gives the specified outcome, conflicting letters included |
| `ModeCode.GetModes` | include/redux/translators.hpp:463-473 | The parser, wherever it ends, gives the specified outcome for every string; an empty token is rejected |
| `Bytes.SignedLittle` | src/dlm/idlutil.cpp:920-930 | Little-endian two's complement bytes read back as the number |
| `Bytes.ReadStringBack` | src/dlm/idlutil.cpp:870-873 | A terminated text without zero bytes reads back, with its terminator consumed |
| `StructDefs.DecodeEncode` | src/dlm/idlutil.cpp:867-965 | For every nesting of definitions, unpacking what was packed rebuilds names, types, flags and dimensions and consumes exactly the packed bytes, if and only if no array tag has more than seven dimensions; with eight the receiving array overflows |
| `StructDefs.EightDimsOverflow` | src/dlm/idlutil.cpp:935-942 | A concrete definition with an array tag of eight dimensions that is packed and cannot be unpacked |
| `StructDefs.HeadBack` | src/dlm/idlutil.cpp:878-895 | The fixed part of a tag reads back |
| `StructDefs.StringOffsetsExactly` | src/dlm/idlutil.cpp:852-861 | The collected offsets name exactly the string tags at every depth, as sums of the offsets leading to them |
| `StringPaths.OffsetsInOrder` | src/dlm/idlutil.cpp:852-861 | The collected list has one entry for each string tag at any depth, in the order of packing: the offsets along its path added up, and its number of elements |
| `StructCode.StructDefSize` | src/dlm/idlutil.cpp:831-864 | The size pass returns the packed length and the specified string offsets |
| `StructCode.TagSize` | src/dlm/idlutil.cpp:839-861 | The same for one tag |
| `StructCode.PackStructDef` | src/dlm/idlutil.cpp:867-910 | Writes exactly the packed bytes at the pointer and nothing else, counts them, and collects the offsets the size pass collects |
| `StructCode.PackTag` | src/dlm/idlutil.cpp:878-905 | The same for one tag |
| `StructCode.PackHead` | src/dlm/idlutil.cpp:878-895 | The same for the fixed part of a tag |
| `StructCode.UnpackStructDef` | src/dlm/idlutil.cpp:913-965 | The unpacking loop follows the specification wherever the bytes can be read |
| `StructCode.UnpackTags` | src/dlm/idlutil.cpp:924-952 | The same for the loop over tags |
| `StructCode.UnpackTag` | src/dlm/idlutil.cpp:925-951 | The same for one tag |
| `StructCode.PackedThenUnpacked` | src/dlm/idlutil.cpp:867-965 | Packing anywhere in a buffer and unpacking there rebuilds the definition |
| `PackedForms.LowestByteFirst` | src/dlm/idlutil.cpp:875-892 | Numbers are stored with their lowest byte first |
| `PackedForms.TagBytes` | src/dlm/idlutil.cpp:878-895 | Byte by byte: name, zero, eight bytes of offset, type, flags, then the dimensions |
| `PackedForms.DimensionBytes` | src/dlm/idlutil.cpp:889-893 | The number of dimensions and eight bytes for each |
| `PackedForms.DefinitionBytes` | src/dlm/idlutil.cpp:867-876 | Name, zero, four bytes for the number of tags, then the tags |
| `PackedForms.TagsInOrder` | src/dlm/idlutil.cpp:876-906 | Tags in order, each with the definition of its structure behind it |
| `PackedForms.RebuiltTags` | src/dlm/idlutil.cpp:923-957 | What is rebuilt of each tag: name, flags, dimensions, and its type or its structure |
| `Variables.SizeExactly` | src/dlm/idlutil.cpp:968-1037 | getVarSize equals the bytes packVar writes if and only if the variable is not an array of two gigabytes or more |
| `Variables.DecodeEncodeVar` | src/dlm/idlutil.cpp:1112-1197 | For every scalar, array, string and string array, unpackVar after packVar gives type, dimensions and contents back and consumes exactly the packed bytes |
| `Variables.StringsBack` | src/dlm/idlutil.cpp:1169-1175 | A string array reads back element by element |
| `PackedForms.VariableBytes` | src/dlm/idlutil.cpp:1040-1109 | Byte by byte: type, flags, for an array the number of dimensions and eight bytes for each, then the data |
| `PackedForms.StringsInOrder` | src/dlm/idlutil.cpp:1089-1092 | Strings one after the other with a zero after each |
| `PackedForms.ArrayWithoutDimensions` | src/dlm/idlutil.cpp:1159-1166 | An array that says it has no dimensions is taken for its three bytes alone |
| `Cache.CacheSizeIs` | src/dlm/rdx.cpp:918-923 | The size pass, in size_t, falls short of the packed bytes by the excess of the arrays of two gigabytes and more, and only by that |
| `Cache.CacheSizeExactly` | src/dlm/rdx.cpp:918-925 | The computed size is the packed size if and only if there is no such array; otherwise it is too small or more than memory can be |
| `Cache.LoadStored` | src/dlm/rdx.cpp:1016-1031 | The load loop on stored bytes stops exactly at their end, with every entry put into the map |
| `Cache.LoadStoredThen` | src/dlm/rdx.cpp:1019-1031 | Stored entries are read first, whatever comes after them, and a name that does not end makes the file unreadable |
| `PackedForms.EntriesInOrder` | src/dlm/rdx.cpp:928-931 | Each entry is its name, a zero, and the variable |
| `Cache.StoreThenLoad` | src/dlm/rdx.cpp:917-931 | Storing and loading gives back the same map, key by key, up to scalar flags |
| `Cache.SizePass` | src/dlm/rdx.cpp:918-923 | The loop computes the specified size, wrapping as size_t does |
| `Cache.PackVar` | src/dlm/idlutil.cpp:1040-1109 | Writes exactly the specified bytes at the pointer and nothing else |
| `Cache.PackVarHead` | src/dlm/idlutil.cpp:1044-1087 | The same for type, flags and dimensions |
| `Cache.PackDims` | src/dlm/idlutil.cpp:1085-1087 | The same for the dimensions |
| `Cache.PackStrings` | src/dlm/idlutil.cpp:1089-1092 | The same for a string array |
| `Cache.CacheStore` | src/dlm/rdx.cpp:917-931 | The buffer, whose size the first pass computed, is filled with exactly the specified bytes if and only if no array has two gigabytes or more; otherwise the allocation fails or a write leaves the buffer |
| `Cache.CacheLoad` | src/dlm/rdx.cpp:1016-1031 | The load loop follows the specification on every byte string |
| `Residual.ClipExactly` | src/dlm/libgrid.cpp:168-180 | A pixel is in the clipped window if and only if it is in the window and its shifted partner is in the image |
| `Residual.RowInBounds` | src/dlm/libgrid.cpp:211-213 | Every row of the clipped window lies inside both images |
| `Residual.ResidRange` | src/dlm/libgrid.cpp:190-239 | With positive weights the residual is between 0 and the cap where the shifted window overlaps the image, and -1 exactly where it does not |
| `ResidualForms.ResidExactly` | src/dlm/libgrid.cpp:211-238 | In coordinates, summed column by column: the weighted squares of the biased differences of pixel (i, j) and its shifted partner, over the weights |
| `ResidualForms.RowsAreColumns` | src/dlm/libgrid.cpp:219-235 | Summing by rows or by columns is the same |
| `ResidualForms.ConstantDifference` | src/dlm/libgrid.cpp:224-232 | If the biased difference is the same everywhere, the residual is its square, at most the cap; it vanishes where the bias accounts for the difference |
| `ResidualCode.SumWeights` | src/dlm/libgrid.cpp:193-202 | The pointer walk sums the products of weights over the clipped window |
| `ResidualCode.SumRow` | src/dlm/libgrid.cpp:220-230 | One row of the residual |
| `ResidualCode.SumTerms` | src/dlm/libgrid.cpp:211-235 | The pointer walk, with its skip at the end of each row, equals the indexed weighted sum and stays in bounds |
| `ResidualCode.ResidWalk` | src/dlm/libgrid.cpp:156-239 | resid equals the indexed weighted mean, or -1 on empty overlap |
| `ResidualCode.NormCache.constructor` | src/dlm/gridmatch.cpp:176-177 | The static variables start as zeros |
| `ResidualCode.NormCache.Resid` | src/dlm/gridmatch.cpp:167-249 | The cached version divides by the remembered sum when the limits are the remembered ones, and remembers new limits |
| `ResidualCode.CacheIsTransparentExactly` | src/dlm/gridmatch.cpp:198-220 | The cached residual is the uncached one if and only if the limits are new, the remembered sum is that of the current weights, or the images agree perfectly and the remembered sum is nonzero |
| `ResidualCode.MemoHoldsThroughout` | src/dlm/gridmatch.cpp:214-218 | Over any session with the same weights the static variables hold the right sum from the first call on that has other limits than the corner pixel, and are the initial ones until then |
| `ResidualCode.SessionIsTransparentExactly` | src/dlm/gridmatch.cpp:167-249 | Over any session with the same weights, a call gives the uncached residual if and only if it is not clipped to the corner pixel, or an earlier call had other limits, or the weight there is zero |
| `ResidualCode.FreshCacheMissesTheCorner` | src/dlm/gridmatch.cpp:176-198 | The first call of all on the corner pixel alone divides by zero |
| `Minimum.ModelInterpolates` | src/dlm/libgrid.cpp:114-142 | The fitted quadratic goes through the centre, its four neighbours, and a smallest corner |
| `Minimum.StationaryPoint` | src/dlm/libgrid.cpp:143-145 | Where the quadratic's own point is returned, both its partial derivatives vanish there |
| `Minimum.GetMinExactly` | src/dlm/libgrid.cpp:143-149 | With a nonzero determinant the only stationary point is returned if and only if it is less than 0.75 away on both axes, and the minimum along each axis otherwise |
| `Minimum.GetMinDegenerate` | src/dlm/libgrid.cpp:143-149 | With a zero determinant the minimum along each axis is returned, or no number when both numerators vanish |
| `Minimum.AxisExactly` | src/dlm/libgrid.cpp:147-148 | Along each axis: where the derivative of the parabola through three entries vanishes, if it is a parabola |
| `Minimum.AxisHalfStep` | src/dlm/libgrid.cpp:146-149 | Along an axis the fallback is within half a pixel of a strict first minimum |
| `Minimum.CorrectionIsSmall` | src/dlm/libgrid.cpp:104-151 | If the centre is the first minimum, the correction is below 0.75 on each axis, and is no number exactly if determinant and both numerators vanish |
| `Match.FirstMin` | src/dlm/libgrid.cpp:272-278 | The index found is strictly below all earlier entries and at most all later ones |
| `Match.FoundIsMinimum` | src/dlm/libgrid.cpp:262-312 | A search that succeeds ends at an offset whose residual is strictly below every earlier-indexed neighbour and at most every later one, overlaps the image, and is within the clip and the moves that were left |
| `Match.OffsetsAreBounded` | src/dlm/libgrid.cpp:253-321 | A successful match from any start has both offsets below stretch_clip + 0.75 and within 18.75 of the start; from a zero start below min(stretch_clip, 18) + 0.75 |
| `MatchPaths.SucceedsExactly` | src/dlm/libgrid.cpp:253-316 | A match succeeds if and only if there is a path of at most 18 moves from the rounded start, each to the first smallest of nine residuals, all of them on the image and within the clip, to an offset that is the first smallest of its own nine |
| `MatchPaths.MatchIsRefinedEnd` | src/dlm/libgrid.cpp:319-321 | It then gives the end of that path, refined by the fit to the nine residuals around it, row by row |
| `MatchPaths.ResidualAtExactly` | src/dlm/libgrid.cpp:248-269 | The residual of an offset is the weighted mean of biased squared differences, each at most a million, or -1 |
| `MatchPaths.BiasExactly` | src/dlm/libgrid.cpp:267-267 | The bias is a polynomial of degree two in the offset, given by its value at zero and its differences |
| `MatchPaths.RoundIs` | src/dlm/libgrid.cpp:272-292 | What a round does, in terms of the first smallest residual |
| `Match.FillTable` | src/dlm/libgrid.cpp:263-271 | With the known entries trusted, the table becomes the nine recomputed residuals |
| `Match.Smallest` | src/dlm/libgrid.cpp:272-278 | The loop finds the first smallest entry |
| `Match.Shuffle` | src/dlm/libgrid.cpp:294-307 | After the move every entry marked done holds the residual of its new place |
| `Match.ShiftedEntry` | src/dlm/libgrid.cpp:297-303 | An entry and its shifted place name the same offset |
| `Match.OneRound` | src/dlm/libgrid.cpp:263-307 | One round decides as a search that recomputes all nine residuals does |
| `Match.Match1` | src/dlm/libgrid.cpp:253-321 | From any start, match_1 with its shifted memo table gives the result of the search that recomputes everything, and flags a bad match exactly when that search fails |
| `Resample.InterpRange` | src/dlm/libgrid.cpp:595-612 | Bilinear interpolation in an image stays within the range of the image |
| `Resample.InterpAtPixel` | src/dlm/libgrid.cpp:595-612 | At a pixel it is the pixel, on the far edges too |
| `Resample.SurfacesAreReproduced` | src/dlm/libgrid.cpp:595-612 | It reproduces every surface that is linear in each coordinate |
| `Resample.PlaceOf` | src/dlm/libgrid.cpp:533-546 | The place of a pixel on the grid is its centre in grid cells plus one half, and is positive |
| `Resample.DisplacementRange` | src/dlm/libgrid.cpp:547-592 | A displacement lies between the smallest and the largest node |
| `Resample.NodesAreMet` | src/dlm/libgrid.cpp:547-592 | A pixel in the centre of a grid cell is displaced as its node says |
| `ResampleForms.DisplacementExactly` | src/dlm/libgrid.cpp:547-592 | For nodes on a surface that is linear in each coordinate, every pixel is displaced by that surface at its centre in grid cells, moved into the grid |
| `ResampleForms.StoredByRows` | src/dlm/libgrid.cpp:607-610 | Images are stored row by row |
| `ResampleForms.StoredInPairs` | src/dlm/libgrid.cpp:560-592 | Grids are stored as pairs, the horizontal displacement first |
| `Resample.StretchRange` | src/dlm/libgrid.cpp:506-621 | Whatever the displacements, every output is within the range of the image |
| `Resample.UniformShift` | src/dlm/libgrid.cpp:506-621 | Uniform whole-pixel displacements give the clamped shift |
| `ResampleForms.StretchExactly` | src/dlm/libgrid.cpp:506-621 | For such a grid and such an image every pixel gets the value of the image at the point it is displaced to, moved into the image |
| `Resample.NoDisplacement` | src/dlm/libgrid.cpp:506-621 | A grid of zeros gives the image back |
| `Resample.Bracket` | src/dlm/libgrid.cpp:547-558 | The two nodes around a place; the end nodes count twice beyond them |
| `Resample.GridValue` | src/dlm/libgrid.cpp:579-592 | The weighted sum of four nodes, read inside the grid |
| `Resample.ImageValue` | src/dlm/libgrid.cpp:599-612 | The weighted sum of four pixels, read inside the image |
| `Resample.StretchRow` | src/dlm/libgrid.cpp:563-615 | The inner loop, with its accumulated abscissa, fills one row and keeps the rows before it |
| `Resample.Stretch` | src/dlm/libgrid.cpp:506-621 | The output array is the specified image |
| `Resample.CongridRange` | src/dlm/mathlib.hpp:156-182 | congrid stays within the range of the image |
| `Resample.CongridMeets` | src/dlm/mathlib.hpp:160-177 | Wherever the two rasters meet, corners included, the new image has the old pixel |
| `ResampleForms.CongridExactly` | src/dlm/mathlib.hpp:160-177 | Between the rasters: on a surface that is linear in each coordinate, every new pixel has its value at the evenly scaled place |
| `Resample.CongridSameSize` | src/dlm/mathlib.hpp:156-182 | At equal size congrid is the identity |
| `Resample.RefineThenReduce` | src/dlm/mathlib.hpp:156-182 | Dividing every step into smaller ones and going back restores the image |
| `Resample.CongridPixel` | src/dlm/mathlib.hpp:177-177 | The weighted sum of four pixels, read inside the image |
| `Resample.CongridRow` | src/dlm/mathlib.hpp:164-178 | The inner loop fills one row and keeps the rows before it |
| `Resample.Congrid` | src/dlm/mathlib.hpp:156-182 | The output array is the specified image |
| `Keypoints.Nearest` | src/dlm/imgtools.cpp:260-268 | The first nearest counterpart, or none within 10^12 |
| `Keypoints.Proposals` | src/dlm/imgtools.cpp:256-290 | The candidates are exactly the nearest pairs of both passes below their limits |
| `Keypoints.Filter` | src/dlm/imgtools.cpp:293-301 | The filter with its two index sets keeps exactly what clashes with nothing kept before it |
| `Keypoints.KeptIsOneToOne` | src/dlm/imgtools.cpp:293-301 | What is kept is one-to-one and taken from the list |
| `Keypoints.KeptKeepsOrder` | src/dlm/imgtools.cpp:292-301 | What is kept is sorted by distance |
| `Keypoints.KeptSettlesAll` | src/dlm/imgtools.cpp:293-301 | Every candidate is kept or shares a point with a kept one of no larger distance |
| `Keypoints.KeptIsStable` | src/dlm/imgtools.cpp:292-301 | Whatever order the sort leaves ties in, the result is a one-to-one, greedy-stable, maximal choice |
| `Keypoints.StableIsUnique` | src/dlm/imgtools.cpp:292-301 | Where no two competing candidates tie, there is only one stable choice |
| `Keypoints.SortDoesNotMatter` | src/dlm/imgtools.cpp:292-301 | So without ties the sort cannot change which pairs are kept, nor their order when all distances differ |
| `Keypoints.StableIsKept` | src/dlm/imgtools.cpp:292-301 | Every stable choice is what the filter keeps of some order that a sort may produce |
| `Keypoints.SortMattersExactly` | src/dlm/imgtools.cpp:292-301 | The sort decides which pairs are kept if and only if the candidates have more than one stable choice |
| `Keypoints.TiesCanMatter` | src/dlm/imgtools.cpp:292-301 | With ties, two legitimate sorts of the candidates of concrete key points keep one pair and two pairs |
| `Keypoints.AtLeastHalf` | src/dlm/imgtools.cpp:293-301 | The result has at least half as many pairs as any one-to-one choice from the candidates |
| `Keypoints.MatchNearest` | src/dlm/imgtools.cpp:248-303 | The whole function returns a sorted one-to-one stable choice from exactly the nearest pairs |

## Left out

- Sockets, handshakes, commands, logging, thread pools, timers and workers of the daemon; the jobs themselves, of which only identity and the outcome of asking for work appear.
- An empty mode list: printing one inspects the last character of an empty string, which has no defined outcome.
- A job that is destroyed while units refer to it: the key of a unit changes in the model only where the scheduler changes it.
- Table entries of the daemon with a null host or a null unit.
- SchedulerPlaces.EveryObjectInOnePlace: takes a return as one step; `SchedulerReturns` takes lookup and erasure apart, proves it of every run without a race, and shows what a race does.
- SchedulerPlaces.QueuesHaveNoDuplicates: the same.
- SchedulerPlaces.ReturnKeeps: the same.
- The local push locks another mutex than the local pop; both are taken as atomic.
- Lists of signed, floating-point and 8-bit elements, which are printed without runs or as characters.
- Overflow of `int` in the step and element-count arithmetic is taken to wrap.
- Structure payloads, object references and pointers in variables; the offsets that unpacking reads and discards; compression, taken as the identity; element sizes come from a table of IDL's types.
- Rounding of floating-point numbers, and the infinities and NaNs that arise from anything but the divisions in `getmin` and `resid`.
- Window means and weights of the matcher: `averag` and `unbias` enter as arbitrary coefficients of the fit, and the Gaussian weights as arbitrary positive numbers.
- ModeExact.ModesRoundTripExactly: requires that neighbours of different types have different letters. Without that, sound runs are still sufficient (`ModesRoundTrip`), but not necessary (`UnsoundCanCancel`), and which unsound lists come back is not characterised.
- Cache files larger than the address space of the machine.
- Threads of `stretch`, which write disjoint rows; the cubic `stretch` of the older grid matcher.
- Resample.Stretch: images narrower or lower than two pixels, for which the code reads outside the image; the same for Resample.Congrid.
- Mapping of key points through a homography: the distances are arbitrary inputs; `std::sort` is represented by any order that is sorted by distance.
- FITS, ANA and momfbd file formats, Zernike and Fourier code, image alignment, and the summation of images.
