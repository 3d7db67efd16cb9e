# A clock-synchronisation engine, modelled and proved in Dafny

The project models the computing core of a distributed clock-synchronisation engine: everything that takes
numbers in and gives numbers or state out, without the network around it. `dafny verify dfyconfig.toml` checks it.

Real numbers stand for the floating-point values, unbounded integers for nanoseconds. Square root is a parameter with
`r >= 0` and `r * r == s`, and distance in the geoid a parameter that is a metric.

| part | files | the main results |
|---|---|---|
| network frame | `Vectors`, `Cholesky`, `Laplacian`, `Bfs`, `Cycles`, `Frame`, `FrameProperties`, `FrameSpreads`, `FrameCycles` | the solve succeeds and is the least-squares one; the fundamental cycles exist, are counted and miss no inconsistency; a consistent lie is invisible in residuals, spreads, tree and cycles, and nothing else is invisible in the cycles |
| iterative solver | `Solver`, `Settling`, `LowGrade`, `SolverState`, `ExactSolver` | exactly the qualities at which every run settles, and exactly those at which the energy descends; balance at rest, 1.6 times the last defect, gauge invariance of whole runs |
| measurements | `Twist`, `Reference` | the reading's error bound and the holonomy bound of every loop; what a reading of a reference is worth |
| interval agreement | `Marzullo` | the sweep finds the deepest overlap, and what it means for the true value |
| peer track | `Kalman`, `KalmanModel`, `PeerTrack`, `TrackRuns`, `StepVerdict`, `TrackSymmetry`, `TrackReport` | semidefinite covariance and the clock the filter models; the gate, step and restart invariants over every run; exactly which exchanges are steps, and what a shift of the peer's clock does; the symmetry between a clock ahead and one behind |
| anchors | `Gossip`, `GossipRuns`, `DieOut` | how old a copy can look in any network run, who holds it, and exactly when it dies out |
| clock selection | `Robust`, `Selection`, `SelectionLoop`, `Tangles` | both rejection loops cut the worst and split the anchors; exactly when the first never ends, and exactly which patterns of measurements let it; the median and spread are robust, and grow with the scatter |
| channel codes | `Crt` | extended Euclid and Chinese remaindering, with uniqueness and injectivity |
| NTP | `Ntp` | header and timestamp round trips, exactly when they hold, and reply checking |
| geoid | `Partition`, `Geoid`, `GeoidLeaves`, `GeoidGrouping`, `GeoidHierarchy` | partitions, conservation, nesting and resolution through all layers; the grouping is determined |
| temporal mirror | `Mirror` | the truncating bisection's budget, which every boundary with a drift for each offset is within |
| shared | `Basics` | options, quotients, ascending lists |

Where the code does less than its documentation says, the model follows the code:

- `crates/rtfsn-core/src/sync/ntp.rs:130-131` promises the nearest era for any clock within 68 years. Exactly 2³¹ s
  after the hint two eras tie and the earlier one wins (`Ntp.TieLosesAnEra`); `Ntp.TimestampRoundTrip` gives the exact range.
- `crates/rtfsn-core/src/sync/relational.rs:363-366` says an anchor handed around ages from its last real measurement.
  It ages only while it rests at a node: time in transit is lost (`GossipRuns.HeldAges`), so a copy always under way
  never ages (`GossipRuns.RestlessCopyNeverExpires`). Nor does a server nobody queries any more stop circulating when
  transit takes no time: two nodes that each hand it on and then expire it keep it for ever (`DieOut.PingPong`). It dies
  out if and only if every node a copy reached has expired it with no copy handed to it since (`DieOut.GoneIffCleared`),
  for which it is enough that every node expires before it hands on (`DieOut.ClearingFirstSuffices`). A rejected exchange
  also counts as a measurement (`GossipRuns.RefusedStillRefreshes`).
- `crates/rtfsn-core/src/holonomy/solver.rs:7-12` and `:51-52` say the solver minimises the defects step by step. The
  truncation of each edge's weighted error stands in the way at low quality. With all edges of one quality, and no
  self-loops, every run comes to rest if and only if that quality is 0 or at least 16 (`LowGrade.CalmIsExact`); at 1 to 15 a square of four
  edges swings between two states for ever (`LowGrade.NeverRests`). The weighted squared defects never rise if and only
  if it is 0, 40, or at least 42 (`LowGrade.GradeIsExact`). Without truncation they never rise
  (`ExactSolver.ExactStepDescends`). Edges of different qualities may be mixed where every run settles
  (`Settling.RunSettles`) or descends (`Solver.StepDescends`).
- Clock selection need not end. Its first loop goes on for ever if and only if in some round, with three or more anchors
  chosen, the worst edge of UTC is past five of its spreads and leads to a node that is not chosen
  (`SelectionLoop.EndlessIffOutside`): the round then changes nothing. `hear` accepts edges that UTC itself measures, and
  such an edge is needed (`SelectionLoop.SilentEnds`); three agreeing anchors, with UTC and a fourth node each reading 100
  of the other, are enough (`SelectionLoop.HundredNanoseconds`). As a condition on who measures whom: it can happen if and
  only if UTC measures a node that some other edge touches too, and the measurements name at least four nodes that may be
  anchors (`Tangles.TangleCanLoop`, `Tangles.UntangledEnds`). `hear_anchor` accepts an anchor at UTC itself, so UTC counts
  among the four; where no anchor is at UTC, four nodes beside it are needed. Both are proved.

## Model

| member | source | states |
|---|---|---|
| `Cholesky.Factorise` | crates/rtfsn-core/src/sync/relational.rs:840-856 | the in-place factorisation succeeds if and only if the symmetric matrix is positive definite, and then its triangular factor satisfies L Lᵀ = A |
| `Cholesky.Solve` | crates/rtfsn-core/src/sync/relational.rs:857-875 | forward and back substitution through the factor solve A x = b exactly |
| `Cholesky.SpdSolve` | crates/rtfsn-core/src/sync/relational.rs:839-885 | `None` if and only if the matrix is not positive definite; otherwise A x = b and the second vector is the diagonal of the inverse |
| `Laplacian.NormalIsPosDef` | crates/rtfsn-core/src/sync/relational.rs:897-933 | the reduced weighted Laplacian of a connected component is positive definite, so the factorisation never fails on it |
| `Laplacian.NormalIsSymmetric` | crates/rtfsn-core/src/sync/relational.rs:908-923 | the assembled matrix is symmetric |
| `Laplacian.Assemble` | crates/rtfsn-core/src/sync/relational.rs:905-923 | the accumulation loop builds exactly the normal equations of the weighted measurements |
| `Laplacian.StationaryIsLeastSquares` | crates/rtfsn-core/src/sync/relational.rs:897-933 | a solution of the normal equations minimises the weighted squared residual over every assignment holding the reference at zero, and is the only minimiser |
| `Laplacian.LaplacianSolve` | crates/rtfsn-core/src/sync/relational.rs:897-933 | the values solve the normal equations, so on a connected component they are the least-squares assignment; each spread is the square root of an entry of the inverse's diagonal, over the unknowns in ascending order; nodes outside, and everything when the matrix is singular, stay zero |
| `Bfs.Search` | crates/rtfsn-core/src/sync/relational.rs:968-981 | the queue loop visits the component once, parents before children, and every edge spans at most one level of the tree; order and parents are a function of the graph and the root |
| `Bfs.OneSearch` | crates/rtfsn-core/src/sync/relational.rs:968-981 | so two searches of one graph from one root find the same order and the same parents |
| `Frame.BuildAdjacency` | crates/rtfsn-core/src/sync/relational.rs:962-967 | two nodes are adjacent exactly when a usable edge joins them, and adjacency is symmetric |
| `Frame.OrderIsComponent` | crates/rtfsn-core/src/sync/relational.rs:968-981 | the nodes visited are exactly those some walk of measurements joins to the reference |
| `Frame.Depths` | crates/rtfsn-core/src/sync/relational.rs:1092-1100 | depths read back from the visiting order are the depths of the search tree |
| `Cycles.MergePairs` | crates/rtfsn-core/src/sync/relational.rs:1062-1080 | both directions of every pair are merged into one inverse-variance sum, and exactly the measured pairs get an entry |
| `Cycles.LevelGap` | crates/rtfsn-core/src/sync/relational.rs:973-981 | no edge joins levels more than one apart, which the walk to the common ancestor relies on |
| `Cycles.FundamentalCycle` | crates/rtfsn-core/src/sync/relational.rs:1103-1121 | the climb terminates at the lowest common ancestor and the closed walk has at least three distinct nodes, starts with the pair itself, and goes along tree edges otherwise: no pair (u, u) is ever looked up |
| `Cycles.OneWalk` | crates/rtfsn-core/src/sync/relational.rs:1103-1121 | the tree decides the cycle: up both climbs to where they first meet, and no other walk |
| `Cycles.ReadIsHop` | crates/rtfsn-core/src/sync/relational.rs:1082-1091 | reading a pair in either direction gives its merged mean with the right sign and its positive variance, and never divides by zero |
| `Cycles.CycleIsMeasured` | crates/rtfsn-core/src/sync/relational.rs:1123-1130 | every hop of a cycle is a measured pair, so no lookup fails |
| `Cycles.Holonomy` | crates/rtfsn-core/src/sync/relational.rs:1122-1130 | the loop sums the merged measurements, and their variances, once around the closed walk |
| `Cycles.FindCycles` | crates/rtfsn-core/src/sync/relational.rs:1101-1140 | exactly the pairs that are not tree edges get a cycle, in ascending order of the pairs, each the one the tree decides, with its own holonomy and variance |
| `Cycles.CycleCount` | crates/rtfsn-core/src/sync/relational.rs:1101-1140 | there are exactly pairs − members + 1 cycles |
| `Cycles.CyclesMissNothing` | crates/rtfsn-core/src/sync/relational.rs:1054-1140 | all listed cycles have zero holonomy if and only if some assignment of node values explains every merged pair, if and only if every closed walk of measured pairs sums to zero |
| `Frame.SolveFrame` | crates/rtfsn-core/src/sync/relational.rs:937-1172 | the whole frame over one channel, for every list of observations: component, tree, least-squares values, spreads, residuals, merged pairs and the fundamental cycles, each as stated above, and zeros outside the component |
| `Frame.Residuals` | crates/rtfsn-core/src/sync/relational.rs:1029-1043 | each residual is the measurement less the solved difference |
| `FrameProperties.ConsistentLieIsInvisible` | crates/rtfsn-core/src/sync/relational.rs:937-1172 | adding φ(b) − φ(a) to every measurement shifts the solution by φ − φ(reference) and leaves every residual and every closed-walk sum unchanged |
| `FrameSpreads.LieKeepsSpreads` | crates/rtfsn-core/src/sync/relational.rs:924-933 | and leaves every spread as it was |
| `FrameCycles.LieKeepsCycles` | crates/rtfsn-core/src/sync/relational.rs:1101-1140 | and leaves the tree and the whole list of cycles as it was: nodes, holonomy, variance and order |
| `FrameCycles.CyclesMissOnlyLies` | crates/rtfsn-core/src/sync/relational.rs:23-28 | and conversely: new readings of the same edges leave the list of cycles as it was if and only if they move every merged pair by the difference of some node values; the tree never changes |
| `FrameProperties.FrameCyclesMissNothing` | crates/rtfsn-core/src/sync/relational.rs:1054-1140 | the same equivalence as `CyclesMissNothing`, for every solved frame |
| `FrameProperties.QuietIffExact` | crates/rtfsn-core/src/sync/relational.rs:937-1172 | all cycles of a solved frame are quiet if and only if the least-squares values explain every merged pair exactly |
| `Solver.StepStaysClose` | crates/rtfsn-core/src/holonomy/solver.rs:53-109 | if every active edge's defect is at most d before a step, every one is at most 1.6 d after it, whatever the qualities |
| `ExactSolver.ExactStepDescends` | crates/rtfsn-core/src/holonomy/solver.rs:53-109 | with exact weights (no truncation) a step never increases the weighted squared defects on any graph without self-loops, whatever the qualities, and lowers them strictly if it moves a node |
| `Solver.StepDescends` | crates/rtfsn-core/src/holonomy/solver.rs:53-109 | with the truncations of the code, on any graph without self-loops a step never increases the weighted squared defects, and lowers them strictly if it moves a node, for qualities that are 0, 40, or at least 42 |
| `LowGrade.GradeIsExact` | crates/rtfsn-core/src/holonomy/solver.rs:53-109 | those are the only ones: on every graph without self-loops whose edges have quality q no step increases them if and only if q is 0, 40, or at least 42 |
| `LowGrade.WitnessRises` | crates/rtfsn-core/src/holonomy/solver.rs:92-101 | at every other quality, a complete bipartite grid whose first step raises them |
| `Settling.StepFalls` | crates/rtfsn-core/src/holonomy/solver.rs:53-109 | on any graph without self-loops, at qualities that are 0 or at least 16, every step that moves a node lowers an integer potential built from the truncated shares |
| `Settling.RunSettles` | crates/rtfsn-core/src/holonomy/solver.rs:53-126 | so every run reaches a state it never leaves, after at most as many moving steps as its potential; and as its energy, where that descends |
| `LowGrade.CalmIsExact` | crates/rtfsn-core/src/holonomy/solver.rs:53-126 | on every graph without self-loops whose edges have quality q every run comes to rest if and only if q is 0 or at least 16 |
| `LowGrade.NeverRests` | crates/rtfsn-core/src/holonomy/solver.rs:92-109 | at every quality from 1 to 15, a square of four edges whose run moves in every step for ever |
| `Solver.RestIsBalanced` | crates/rtfsn-core/src/holonomy/solver.rs:92-109 | at rest with quality 100 the mean signed error of every measured node is under 10/3 ns |
| `Solver.RestIffBalanced` | crates/rtfsn-core/src/holonomy/solver.rs:92-109 | a state is at rest if and only if thirty times the pull on every node is less than the weight behind it |
| `Solver.RestIsNearlyBalanced` | crates/rtfsn-core/src/holonomy/solver.rs:92-109 | so at any qualities a node at rest has three times its weighted errors' sum, errors weighted by quality, within ten times its total quality and 297 for each edge of zero |
| `Solver.ShiftedRun` | crates/rtfsn-core/src/holonomy/solver.rs:53-126 | shifting all measurements by φ(hi) − φ(lo) and the start by φ, a whole run has identical corrections and defects |
| `SolverState.HolonomySolver.AddNode` | crates/rtfsn-core/src/holonomy/solver.rs:38-40 | the node's offset is set, every other node and all measurements stay |
| `SolverState.HolonomySolver.AddMeasurement` | crates/rtfsn-core/src/holonomy/solver.rs:42-49 | the measurement joins the table, oriented, and no node moves |
| `SolverState.HolonomySolver.Accumulate` | crates/rtfsn-core/src/holonomy/solver.rs:59-97 | the neighbour loop computes the truncated weighted sum, the weight and the defects seen |
| `SolverState.HolonomySolver.Gather` | crates/rtfsn-core/src/holonomy/solver.rs:54-103 | one correction for every node with weight, computed from the state before any node moves |
| `SolverState.HolonomySolver.Step` | crates/rtfsn-core/src/holonomy/solver.rs:53-126 | all nodes move together by their corrections; the reported maximum is the largest defect before the move, attained by some edge, and the reported mean that of all active edges, rounded down, on a table without self-loops |
| `SolverState.HolonomySolver.Solve` | crates/rtfsn-core/src/holonomy/solver.rs:165-182 | the state after the steps taken, which end at the first state whose largest defect is within the tolerance, or when they run out; the reported maximum is the largest defect of the state before the last step, attained by an active edge, or 0 without one; the reported iteration count and mean; convergence if and only if that maximum is at most max(tolerance, 999), and every edge of the state left behind is within 1.6 times it |
| `Twist.ExchangeReading` | crates/rtfsn-core/src/holonomy/twist.rs:18-33 | between clocks of constant offset with non-negative legs, for any u64 stamps: the round trip read is the two legs'; the offset read is the half-sum if and only if that fits an i64, and then it is within ⌈rtt/2⌉ of the true offset and exact on a symmetric path; the asymmetry read is the legs' difference plus twice the offset if and only if that fits, so the offset read is half of it |
| `Twist.StoredIsHonest` | crates/rtfsn-core/src/holonomy/twist.rs:58-75 | whichever end made the exchange, what is stored along the edge key is as accurate, for every half-sum whose negation is also an i64 |
| `Twist.OrientedIsNearest` | crates/rtfsn-core/src/holonomy/twist.rs:58-75 | a measurement is stored as it is along the edge key, and against it with offset and asymmetry negated, each to the nearest number an i64 holds |
| `Twist.TwistLUT.Insert` | crates/rtfsn-core/src/holonomy/twist.rs:68-75 | the oriented measurement is appended to its edge and becomes the latest; all other edges are unchanged |
| `Twist.TwistLUT.Trim` | crates/rtfsn-core/src/holonomy/twist.rs:78-84 | every edge keeps exactly its newest measurements, up to the limit |
| `Twist.TwistLUT.Neighbors` | crates/rtfsn-core/src/holonomy/twist.rs:95-108 | the other ends of the node's edges, in table order |
| `Twist.TwistLUT.LoopHolonomy` | crates/rtfsn-core/src/holonomy/twist.rs:112-131 | `None` if and only if the path has under three nodes or an edge without measurement; otherwise the signed sum around the loop |
| `Twist.LoopHolonomyBound` | crates/rtfsn-core/src/holonomy/twist.rs:112-131 | the holonomy of every loop is at most the sum of ⌈rtt/2⌉ over its edges, and zero when every path is symmetric |
| `Reference.ReadingCovers` | crates/rtfsn-core/src/sync/relational.rs:451-480 | the spread a reference is announced with, the server's own distance plus half the round trip, covers how far off its time an exchange that quick can put us |
| `Reference.ReadingIsTight` | crates/rtfsn-core/src/sync/relational.rs:467-478 | and no smaller one would: for every round trip and distance there is an exchange exactly that far off |
| `Marzullo.Sort` | crates/rtfsn-core/src/sync/outlier.rs:46-57 | the events sorted by point, starts first, and none lost |
| `Marzullo.Intersect` | crates/rtfsn-core/src/sync/outlier.rs:29-95 | a result if and only if some point lies in a strict majority; every point of it lies in `best` intervals and no point anywhere in more; it is the whole intersection of the intervals containing it |
| `Marzullo.ResultIsTrustworthy` | crates/rtfsn-core/src/sync/outlier.rs:29-95 | if a strict majority contain the true value, the whole result lies in at least one interval that contains it |
| `Kalman.ClockKalman.Predict` | crates/rtfsn-core/src/sync/kalman.rs:41-52 | the new state is the function of the old one that `PredictKeeps` and `KalmanModel.PredictIsMotion` are about; the noises stay |
| `Kalman.ClockKalman.Update` | crates/rtfsn-core/src/sync/kalman.rs:55-79 | likewise for `UpdateKeeps`, `UpdateIsJoseph` and `UpdatesCommute`; below the guard nothing changes |
| `Kalman.ClockKalman.Step` | crates/rtfsn-core/src/sync/kalman.rs:82-85 | one event of the runs of `RunKeeps`: prediction, then update |
| `Kalman.PredictKeeps` | crates/rtfsn-core/src/sync/kalman.rs:41-52 | prediction over dt ≥ 0 keeps the covariance positive semidefinite |
| `Kalman.UpdateKeeps` | crates/rtfsn-core/src/sync/kalman.rs:55-79 | an update of variance r ≥ 0 keeps it positive semidefinite and increases neither variance |
| `Kalman.UpdateIsJoseph` | crates/rtfsn-core/src/sync/kalman.rs:73-78 | the covariance computed equals the Joseph form |
| `Kalman.UpdatesCommute` | crates/rtfsn-core/src/sync/kalman.rs:55-79 | two updates at one instant commute whenever the guard is not hit in either order |
| `Kalman.RunKeeps` | crates/rtfsn-core/src/sync/kalman.rs:41-85 | over every run of predictions and updates the covariance stays positive semidefinite |
| `KalmanModel.UpdateIsExact` | crates/rtfsn-core/src/sync/kalman.rs:55-79 | the whole update: nothing while the innovation's variance is within 10⁻³⁰ of zero; otherwise offset and drift move by the gains times the innovation, and the covariance shrinks by them |
| `KalmanModel.PredictIsMotion` | crates/rtfsn-core/src/sync/kalman.rs:41-52 | the prediction moves the state by F = [[1, dt], [0, 1]] and the covariance to F P Fᵀ + Q, entry by entry |
| `KalmanModel.PredictionsCompose` | crates/rtfsn-core/src/sync/kalman.rs:41-52 | predicting over no time changes nothing, and without process noise two predictions are one over their time |
| `KalmanModel.RunStaysOn` | crates/rtfsn-core/src/sync/kalman.rs:41-85 | a filter that holds the offset and drift of a steadily drifting clock holds them after every run of predictions and noise-free readings of it, whatever the variances |
| `KalmanModel.TwoReadingsSuffice` | crates/rtfsn-core/src/sync/kalman.rs:41-85 | and two exact readings put it there from any state, if its drift was not certain |
| `PeerTrack.Peer.RttFloor` | crates/rtfsn-core/src/sync/relational.rs:200-202 | the windowed minimum round trip, `None` for an empty window |
| `PeerTrack.Peer.Report` | crates/rtfsn-core/src/sync/relational.rs:311-323 | what the track says of its peer, once it has absorbed something |
| `PeerTrack.Peer.PushRtt` | crates/rtfsn-core/src/sync/relational.rs:226-229 | the window keeps the newest round trips |
| `PeerTrack.Peer.Admit` | crates/rtfsn-core/src/sync/relational.rs:211-243 | the three gates, and what each leaves of the track; the round trip is cast to 64 bits as the code casts it |
| `PeerTrack.Peer.Judge` | crates/rtfsn-core/src/sync/relational.rs:246-276 | the step detector: the first jump in a row is held back, the second restarts the track |
| `PeerTrack.Peer.Absorb` | crates/rtfsn-core/src/sync/relational.rs:277-303 | the filter started on the first exchange and stepped on the others |
| `PeerTrack.Peer.Observe` | crates/rtfsn-core/src/sync/relational.rs:210-309 | one exchange, gates to filter to the relation reported, as one function of the track |
| `TrackRuns.StepMoves` | crates/rtfsn-core/src/sync/relational.rs:210-309 | what each verdict does to the counters, the window and the last midpoint |
| `TrackRuns.RunIsOrderly` | crates/rtfsn-core/src/sync/relational.rs:226-229 | at every point of every run the suspect counter is 0 or 1, and 0 before warm-up, and the window is exactly the newest in-order round trips since the last restart |
| `TrackRuns.MidpointsIncrease` | crates/rtfsn-core/src/sync/relational.rs:218-225 | accepted midpoints strictly increase over every run, across restarts too |
| `TrackRuns.FloorBelowRtt` | crates/rtfsn-core/src/sync/relational.rs:230-231 | the floor never exceeds the current round trip, so the excess is not negative |
| `TrackRuns.RestartFollowsStep` | crates/rtfsn-core/src/sync/relational.rs:246-276 | a restart comes right after a step rejection among the exchanges past the gates, and no step rejection follows another |
| `TrackRuns.RunKeepsCovariance` | crates/rtfsn-core/src/sync/relational.rs:277-303 | the filter's covariance is positive semidefinite over every run of the track, stamp noise zero included |
| `TrackRuns.ClampsNeverAct` | crates/rtfsn-core/src/sync/relational.rs:251-254 | so neither the clamp in the step detector nor those in the reported spreads ever change a value |
| `TrackRuns.PopcornEnds` | crates/rtfsn-core/src/sync/relational.rs:226-243 | while the round trips that reach the window stay within the allowance of each other, at most window − 1 exchanges are rejected as spikes before one passes, whatever implausible or out-of-order ones come in between |
| `StepVerdict.GatesAreExact` | crates/rtfsn-core/src/sync/relational.rs:211-243 | the gates let through exactly the exchanges with sane stamps, in order, and once warmed up with an excess over the window's least round trip within the allowance; and change only the window |
| `StepVerdict.RefusalsAreExact` | crates/rtfsn-core/src/sync/relational.rs:211-243 | and each refusal names the first gate that failed: exactly which exchanges are told no positive round trip, out of order, or a spike of that excess |
| `StepVerdict.VerdictIsExact` | crates/rtfsn-core/src/sync/relational.rs:246-276 | on a warmed-up track such an exchange is a step if and only if it reads more than step_ns and more than 50 spreads above, or below, what the track predicts for it; the first in a row is held back with that jump, the next restarts |
| `StepVerdict.WarmingTakesAll` | crates/rtfsn-core/src/sync/relational.rs:246-276 | a track that has not warmed up takes every such exchange |
| `StepVerdict.ColdStart` | crates/rtfsn-core/src/sync/relational.rs:246-276 | with a warm-up of zero the first exchange is judged against the empty track: it is a step if and only if its offset is past the limits around 0 with that track's spread |
| `StepVerdict.ShiftRestarts` | crates/rtfsn-core/src/sync/relational.rs:255-276 | in every run, after the peer's clock is set forward or back past the limits the next exchange past the gates is held back, the one after it restarts the track at its own reading, whatever the gates turned away between them |
| `TrackSymmetry.ObservedTurns` | crates/rtfsn-core/src/sync/relational.rs:210-309 | an exchange with the legs' places changed, on the track with offset and drift negated, gets the same verdict with the jump negated, and leaves the negated track |
| `TrackSymmetry.RunTurns` | crates/rtfsn-core/src/sync/relational.rs:210-309 | so over whole runs a peer ahead and one as far behind are told the same, negated |
| `TrackSymmetry.SteadyPeerStays` | crates/rtfsn-core/src/sync/relational.rs:210-309 | with a warm-up, a peer whose plausible exchanges all read one offset is never taken for stepping, however its round trips vary, and each accepted exchange reports that offset and no drift |
| `TrackReport.FirstReport` | crates/rtfsn-core/src/sync/relational.rs:277-323 | the first exchange a track or a restarted track accepts reports its own offset at its midpoint, spread by the stamp noise and half its round trip, and no drift give or take the prior's |
| `TrackReport.LaterReport` | crates/rtfsn-core/src/sync/relational.rs:277-323 | every later one reports prediction and reading averaged, each weighed by the other's variance, the reading's made of stamp noise and half the excess, or half the round trip before warm-up; the spread reported is that of the average |
| `Gossip.RelationalClock.ObserveReference` | crates/rtfsn-core/src/sync/relational.rs:451-480 | the server becomes an own anchor measured now, whenever its track is not empty |
| `Gossip.RelationalClock.HearAnchor` | crates/rtfsn-core/src/sync/relational.rs:485-506 | the three ways a heard copy is ignored, and what replaces the held one otherwise |
| `Gossip.RelationalClock.GossipAnchors` | crates/rtfsn-core/src/sync/relational.rs:514-522 | every anchor is handed on with the time since its measurement |
| `Gossip.RelationalClock.ExpireAnchors` | crates/rtfsn-core/src/sync/relational.rs:526-529 | exactly the anchors older than the limit are dropped |
| `Gossip.RelationalClock.Forget` | crates/rtfsn-core/src/sync/relational.rs:442-446 | the peer's anchor is dropped |
| `Gossip.FresherOrTighter` | crates/rtfsn-core/src/sync/relational.rs:482-506 | of two copies over ten seconds apart the fresher stays, of two closer ones the tighter; an own anchor stays; no other anchor is touched |
| `GossipRuns.HeldAges` | crates/rtfsn-core/src/sync/relational.rs:451-529 | in every multi-node run, with copies delayed, duplicated or lost, a held copy looks measured at a real measurement of its reference plus the transit along its path; its age is the time it rested at nodes; expiry drops it if and only if that time is past the limit |
| `DieOut.OverdueDiesOut` | crates/rtfsn-core/src/sync/relational.rs:451-529 | with instantaneous hand-on, a reference nobody measured for the limit is held nowhere once every node a copy reached has expired it and got no copy since, hand-ons going on meanwhile; and no hand-on brings it back until it is measured again |
| `DieOut.HeldIff` | crates/rtfsn-core/src/sync/relational.rs:442-529 | in every run, with any transit, a node holds a reference if and only if it held it before or got it since, and has not forgotten or expired it since |
| `DieOut.GoneIffCleared` | crates/rtfsn-core/src/sync/relational.rs:363-366 | with instantaneous hand-on and no node expiring at a looser limit, an overdue reference is gone if and only if every node a copy reached has expired or forgotten it with no copy arriving there since |
| `DieOut.ClearingFirstSuffices` | crates/rtfsn-core/src/sync/relational.rs:514-529 | if every node expires its anchors before it hands them on, an overdue reference is never handed on and is gone for good |
| `DieOut.PingPong` | crates/rtfsn-core/src/sync/relational.rs:514-529 | if they hand on first, two nodes keep an overdue reference for any number of rounds of hand-on and expiry, measured once only |
| `GossipRuns.RestlessCopyNeverExpires` | crates/rtfsn-core/src/sync/relational.rs:485-529 | with transit that takes time it need not die out: a run with a single measurement, however long ago, after which some node still holds a copy that no limit expires |
| `GossipRuns.RefusedStillRefreshes` | crates/rtfsn-core/src/sync/relational.rs:460-478 | an exchange refreshes the anchor if and only if the track takes it or has taken one since its restart: a rejected exchange counts as a measurement too |
| `Robust.MedianIsMedian` | crates/rtfsn-core/src/sync/relational.rs:700-719 | half the entries are at most the middle ones and half at least; the median is their mean, for lists of either parity |
| `Robust.MedianInMajority` | crates/rtfsn-core/src/sync/relational.rs:702-719 | the median lies in every interval that holds a strict majority |
| `Robust.SpreadIsRobust` | crates/rtfsn-core/src/sync/relational.rs:702-719 | and the spread is at most 1.4826 times the interval's width, or the floor constant |
| `Robust.SpreadIsExact` | crates/rtfsn-core/src/sync/relational.rs:700-719 | the centre is the median and the spread the larger of 1.4826 times the median distance from it and 50000 ns |
| `Robust.SpreadFollowsScatter` | crates/rtfsn-core/src/sync/relational.rs:700-719 | if a strict majority lie at least d from the median the spread is at least 1.4826 d |
| `Selection.WithoutShrinks` | crates/rtfsn-core/src/sync/relational.rs:651 | setting an anchor aside shortens the list by one if and only if it is on it; otherwise nothing changes |
| `Selection.WorstEdge` | crates/rtfsn-core/src/sync/relational.rs:643-648 | the edge of UTC with the largest absolute normalised residual |
| `Selection.UtcEdgeIsChosen` | crates/rtfsn-core/src/sync/relational.rs:621-637 | when UTC measures no other node itself, every edge of UTC in the frame leads to a chosen anchor |
| `Selection.Falseticker` | crates/rtfsn-core/src/sync/relational.rs:643-655 | one round: it stops, or cuts the node its worst edge leads to; and that node is not chosen only in a round that repeats for ever, over an edge UTC measures |
| `Selection.SetAsideFalsetickers` | crates/rtfsn-core/src/sync/relational.rs:638-656 | for any edges, those of UTC included, and readings that move with the chosen anchors: every round cut the node its worst edge leads to; the anchors are split into chosen and falsetickers, at least two stay if any was cut; it ends with none of three or more past five of its spreads, or comes to a round that changes nothing, which takes an edge that UTC measures |
| `SelectionLoop.KeepsIffOutside` | crates/rtfsn-core/src/sync/relational.rs:649-653 | a round that does not stop keeps the chosen anchors if and only if it cuts a node that is not one of them |
| `SelectionLoop.OutsideRepeats` | crates/rtfsn-core/src/sync/relational.rs:640-656 | and then every later round repeats it |
| `SelectionLoop.EndlessIffOutside` | crates/rtfsn-core/src/sync/relational.rs:640-656 | the loop never ends if and only if some round does so |
| `SelectionLoop.SilentEnds` | crates/rtfsn-core/src/sync/relational.rs:640-656 | if UTC measures no other node the loop ends, whatever the anchors and readings, and however the readings move from round to round |
| `SelectionLoop.QuarrelLoops` | crates/rtfsn-core/src/sync/relational.rs:640-656 | whatever else is measured and whatever three or more other anchors are chosen: if UTC and a node read a large enough amount of each other, the loop never ends |
| `SelectionLoop.UtcEdgeCanLoop` | crates/rtfsn-core/src/sync/relational.rs:640-656 | and there always is such an amount |
| `SelectionLoop.HundredNanoseconds` | crates/rtfsn-core/src/sync/relational.rs:640-656 | three anchors tied by zero readings, and UTC and a fourth node reading 100 of each other: the loop never ends |
| `Tangles.TangleCanLoop` | crates/rtfsn-core/src/sync/relational.rs:608-656 | for every pattern of who measures whom in which UTC measures a node that another edge touches, with four nodes for anchors, some readings and tied anchors keep the loop going for ever; stated with and without anchors at UTC |
| `Tangles.UntangledEnds` | crates/rtfsn-core/src/sync/relational.rs:608-656 | for every other pattern the loop ends, whatever the tied anchors, the readings and their spreads, and however these move from round to round |
| `Tangles.TiedIsMeasured` | crates/rtfsn-core/src/sync/relational.rs:610-618 | an anchor is kept exactly when some measurement has it at an end |
| `Tangles.UntiedAgrees` | crates/rtfsn-core/src/sync/relational.rs:610-611 | one that nobody measures would sit in the frame at UTC's zero without a residual, whatever the rest reads |
| `Selection.AllPlaced` | crates/rtfsn-core/src/sync/relational.rs:663-666 | every chosen anchor is in the frame, so none is lost from the offsets |
| `Selection.Outlier` | crates/rtfsn-core/src/sync/relational.rs:663-681 | `None` exactly when no more than three remain or all are within four robust spreads of their median; otherwise the one farthest from it |
| `Selection.ClusteredMeans` | crates/rtfsn-core/src/sync/relational.rs:663-681 | the jitter reported is the robust spread of the survivors' offsets, and of more than three none is farther than four times that from their median |
| `Selection.CutMeans` | crates/rtfsn-core/src/sync/relational.rs:671-681 | an anchor cut was one of more than three, the farthest from their median, and past four spreads |
| `Selection.ScatterIsKept` | crates/rtfsn-core/src/sync/relational.rs:657-684 | a round in which such a majority exists and no offset is beyond 4 · 1.4826 d of the median cuts nobody, and the jitter is at least 1.4826 d |
| `Selection.RoundsWereNarrow` | crates/rtfsn-core/src/sync/relational.rs:657-684 | so in every round that cut an anchor no such d existed |
| `Selection.SetAsideOutliers` | crates/rtfsn-core/src/sync/relational.rs:657-684 | terminates; every round cut the survivor farthest from the median; the anchors are split into survivors and outliers, at least three stay if any was cut |
| `Selection.SolveAbsolute` | crates/rtfsn-core/src/sync/relational.rs:607-688 | no frame if and only if no anchor is tied to the network; survivors, falsetickers and outliers share the tied anchors out without overlap, at least min(n, 2) survive, and the frame is the one solved over the survivors; it does not end only in a round that changes nothing, which takes an edge that UTC measures |
| `Selection.SurvivorsNearMajority` | crates/rtfsn-core/src/sync/relational.rs:657-688 | more than three survivors all lie within four spreads of any interval that holds a strict majority of them |
| `Crt.ModInverse` | crates/rtfsn-core/src/holonomy/samr.rs:144-166 | the extended Euclidean loop terminates with a true inverse if and only if the numbers are coprime |
| `Crt.SAMRState.TotalResolution` | crates/rtfsn-core/src/holonomy/samr.rs:58-60 | the product of the moduli |
| `Crt.SAMRState.CrtDecode` | crates/rtfsn-core/src/holonomy/samr.rs:64-75 | the code is below the product always, and congruent to every channel's value when the moduli are pairwise coprime |
| `Crt.SAMRState.Set` | crates/rtfsn-core/src/holonomy/samr.rs:33-37 | one channel's value is replaced, below its modulus, and no other changes |
| `Crt.CodeIsUnique` | crates/rtfsn-core/src/holonomy/samr.rs:64-75 | no other integer below the product agrees with all channels |
| `Crt.CodeIsInjective` | crates/rtfsn-core/src/holonomy/samr.rs:64-75 | distinct value tuples have distinct codes |
| `Crt.RemaindersCode` | crates/rtfsn-core/src/holonomy/samr.rs:64-75 | the remainders of an integer below the product are coded by that integer, so coding inverts taking remainders |
| `Crt.OthersCoprime` | crates/rtfsn-core/src/holonomy/samr.rs:69-70 | the product of the other moduli is coprime to each modulus, so the inverse asked for exists |
| `Ntp.Encode` | crates/rtfsn-core/src/sync/ntp.rs:82-96 | the buffer filled field by field is the 48 bytes of the header |
| `Ntp.DecodeEncoded` | crates/rtfsn-core/src/sync/ntp.rs:82-120 | decoding an encoded header, whatever follows it, gives it back but for the bits the wire has no room for; exactly, if and only if leap < 4, version < 8 and mode < 8 |
| `Ntp.EncodeDecoded` | crates/rtfsn-core/src/sync/ntp.rs:99-120 | decoding fails if and only if there are under 48 bytes; otherwise encoding again gives those 48 bytes |
| `Ntp.BigEndian` | crates/rtfsn-core/src/sync/ntp.rs:82-96 | every field of the header has its most significant byte first |
| `Ntp.EpochsApart` | crates/rtfsn-core/src/sync/ntp.rs:20-22 | the constant between the epochs is the days from 1900 to 1970 by the calendar |
| `Ntp.TimestampIsFixedPoint` | crates/rtfsn-core/src/sync/ntp.rs:124-128 | a timestamp is the time since 1900 in units of 2⁻³² s, rounded down, of which 64 bits are kept |
| `Ntp.TimestampRoundTrip` | crates/rtfsn-core/src/sync/ntp.rs:124-143 | nanoseconds to timestamp and back is exact, across every era boundary, if and only if the instant is from 2³¹ s before to less than 2³¹ s after the hint |
| `Ntp.TieLosesAnEra` | crates/rtfsn-core/src/sync/ntp.rs:137-141 | 2³¹ s after the hint exactly, the earlier era is picked and the instant lost |
| `Ntp.ResolvedIsNearest` | crates/rtfsn-core/src/sync/ntp.rs:135-141 | the seconds resolve to the one instant of their remainder in the half-open era around the hint |
| `Ntp.ZeroAtEras` | crates/rtfsn-core/src/sync/ntp.rs:124-128 | a timestamp is zero only at the first instant of an era |
| `Ntp.ServerReplyParses` | crates/rtfsn-core/src/sync/ntp.rs:212-238 | a server's packet is accepted if and only if its header is acceptable and neither instant starts an era; then t2 and t3 are exactly the server's if and only if each is within half an era of the hint, and root delay and dispersion are whole nanoseconds of the fields sent; stratum 0 is reported as a kiss with its code |
| `Partition.PartitionConserves` | crates/rtfsn-core/src/geoid/coarsen.rs:193-237 | a partition conserves every sum over its groups |
| `Geoid.FindNear` | crates/rtfsn-core/src/geoid/coarsen.rs:95-100 | the first region in progress whose centroid is within the threshold |
| `Geoid.LeafRegions` | crates/rtfsn-core/src/geoid/coarsen.rs:90-178 | each beacon joins the first region whose centroid so far is within the threshold, or founds one; every region has the centroid, radius and residual its beacons make, and together they hold every beacon |
| `GeoidLeaves.TrailHolds` | crates/rtfsn-core/src/geoid/coarsen.rs:87-120 | at every point of the sweep each region in progress holds exactly the beacons put there: their number, the sums of their positions and their clock offsets in order |
| `GeoidLeaves.LeavesAreRegions` | crates/rtfsn-core/src/geoid/coarsen.rs:122-178 | so each region of the finest layer is at the mean position of exactly those beacons, with the mean absolute deviation of their clock offsets |
| `Geoid.MergeRegions` | crates/rtfsn-core/src/geoid/coarsen.rs:240-291 | a merged region has the members, the weighted centroid, the smallest covering radius and the worst residual of its group |
| `Geoid.BallsNest` | crates/rtfsn-core/src/geoid/coarsen.rs:257-261 | a parent's ball contains its children's balls |
| `Geoid.CollectGroup` | crates/rtfsn-core/src/geoid/coarsen.rs:206-219 | the group of a region: itself and every later unmerged region within the threshold |
| `Geoid.CoarsenRegions` | crates/rtfsn-core/src/geoid/coarsen.rs:198-225 | the groups partition the finer layer; every region is in the group of the first leader it is within the threshold of, so leaders are at least the threshold apart |
| `GeoidGrouping.OneGrouping` | crates/rtfsn-core/src/geoid/coarsen.rs:198-219 | there is only one such grouping |
| `Geoid.AddInterEdges` | crates/rtfsn-core/src/geoid/coarsen.rs:294-328 | every region gets an edge to exactly the regions within the threshold, and nothing else of it changes |
| `GeoidHierarchy.LayerEdgesSymmetric` | crates/rtfsn-core/src/geoid/coarsen.rs:299-325 | every edge has its mirror image, joins centroids within the threshold, and is their distance in whole nanoseconds |
| `GeoidHierarchy.BuildHierarchy` | crates/rtfsn-core/src/geoid/coarsen.rs:38-76 | no layer without beacons, otherwise exactly max(1, levels) layers: the finest gathers the beacons first-fit at the base resolution, each other one groups the one before at base · scaleⁱ |
| `GeoidHierarchy.LayerResolution` | crates/rtfsn-core/src/geoid/coarsen.rs:193-225 | in layer i ≥ 1 a region's children lie within base · scaleⁱ of its first child, and at least as far from the first child of every region before |
| `GeoidHierarchy.ThresholdIsGeometric` | crates/rtfsn-core/src/geoid/coarsen.rs:194-196 | base · scaleⁱ: one factor for each level, so i + j levels scale as i and then j |
| `GeoidHierarchy.CoarserConserves` | crates/rtfsn-core/src/geoid/coarsen.rs:193-291 | a coarser layer has no more regions, the same members, the same weighted centroid sums and the same worst residual |
| `GeoidHierarchy.LayersConserve` | crates/rtfsn-core/src/geoid/coarsen.rs:38-76 | so every layer holds every beacon, with the leaves' worst residual |
| `GeoidHierarchy.ChildrenNest` | crates/rtfsn-core/src/geoid/coarsen.rs:221-261 | every fine region is the child of exactly one coarse region, whose ball contains its ball |
| `Mirror.BisectedCloses` | crates/rtfsn-core/src/holonomy/temporal_mirror.rs:53-62 | a round never crosses or leaves the interval between the mirrors, maps a gap D to between D/2 and D/2 + 1, and moves their sum by at most 1 |
| `Mirror.IteratedStays` | crates/rtfsn-core/src/holonomy/temporal_mirror.rs:50-69 | nor does any number of rounds |
| `Mirror.IteratedCentred` | crates/rtfsn-core/src/holonomy/temporal_mirror.rs:50-72 | so after k rounds the mirrors' sum is within k of where it started: the fixed point stays in the middle |
| `Mirror.BudgetSuffices` | crates/rtfsn-core/src/holonomy/temporal_mirror.rs:50-69 | k rounds end below 1000 ns whenever D − 2 < 998·2ᵏ |
| `Mirror.MeanInside` | crates/rtfsn-core/src/holonomy/temporal_mirror.rs:43-45 | a mean of estimates lies among them |
| `Mirror.FindFixedPoint` | crates/rtfsn-core/src/holonomy/temporal_mirror.rs:27-78 | the mirrors after the rounds made, which stop at the first agreement; inside the starting interval, and in agreement within that budget; unsolved without estimates |
| `Mirror.EstimatesRead` | crates/rtfsn-core/src/holonomy/temporal_mirror.rs:110-124 | the forward estimates are what clocks of those offsets and drifts read at the boundary, the backward ones what they would without drift |
| `Mirror.BoundaryInBudget` | crates/rtfsn-core/src/holonomy/temporal_mirror.rs:104-131 | with a drift for every offset the two means start at most 9223372036 ns apart, far inside the budget of fifty rounds, unless a product of drift and time overflows |
| `Mirror.EpochBoundarySolver.SolveBoundary` | crates/rtfsn-core/src/holonomy/temporal_mirror.rs:104-131 | each boundary appends one mirror; every non-empty one within the range of fifty rounds agrees, and so does every one with a drift for each offset whose products fit an i64 |

## Left out

- Floating-point rounding, NaN and infinity, and `ln_1p`/`exp_m1`: the model is over exact reals and starts from log-rate and offset observations.
- 64-bit overflow and saturation in the solver, the temporal mirror, the channel codes and `from_ntp`, and in the difference of an exchange's offset and the track's base offset: integers are unbounded there; the casts of `from_exchange` and of the round trip are modelled.
- Twist.TwistLUT.LoopHolonomy: sums in unbounded integers, where the code's total is an `i64`.
- `i64` and `u32` truncation of the reported step jump and of the mean latency: reported values stay reals or integers.
- The three passes that map offsets to one instant (`crates/rtfsn-core/src/sync/relational.rs:1003-1027`): the frame is solved for given observations, one channel at a time, for offsets or log-rates alike; in the selection the readings of a round are any function of the chosen anchors.
- Frame.SolveFrame: leaves out node ids and their index, the solver node, the mean squares and the final sort orders.
- Cycles.FindCycles: gives each cycle's variance; its square root, the normalised `z` and the worst-first sort by `z`, which takes both channels, are left out.
- ExactSolver.ExactStepDescends: is about the step without the truncations the code makes, to show that they alone spoil the descent.
- Frame.BuildAdjacency: takes the usable edges as given; the tests for finite values and drift above −1 have no counterpart over reals.
- Cholesky.SpdSolve: models the flat row-major arrays as sequences of rows, updated by reassignment.
- Twist.TwistLUT.Neighbors: models the hash map as a list of entries in some iteration order.
- Selection.SolveAbsolute: takes what a round reads, of edges and of anchors, as given; their rate spreads enter those readings' spreads and the drift channel, which is solved the same way.
- Selection.WorstEdge: picks the last of equally bad edges in observation order, where the code picks in sorted residual order.
- Gossip.RelationalClock.ObserveReference: takes the state of the server's track as arguments; the map of tracks, the measurement table and its periodic trim are not part of this object.
- Gossip.RelationalClock.Forget: drops the anchor; the track and the heard edges of the peer are not part of this object.
- SelectionLoop.EndlessIffOutside: takes the solve and the choice among equally bad edges as functions, as the code's are.
- Crt.SAMRState.CrtDecode: demands positive moduli, since the code divides by them; the four classifiers, which only pick a value, are left out.
- Geoid.LeafRegions: leaves out latency commitments and variances; region ids are places in the layer instead of hashes.
- Mirror.FindFixedPoint: takes the product with 0.5 as exact, which it is below 2⁵³ ns.
- Heard edges and their expiry, node removal, geometric outlier rejection, the Vivaldi and regression clocks, the spatial expansion step, latency profiles, epochs, stores and layers: easy next to the above.
- Sockets, daemons, simulations, browser bindings and cryptography.
