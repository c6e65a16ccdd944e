# MVOLPS search engine in Dafny

This project models the decision core of MVOLPS, a branch-and-bound solver for
mixed-integer linear programs built on GLPK. It models and proves properties of:

- **The `branchAndBound` loop of bs.cpp.**
  - `BranchSearch.Step` is one iteration as a state transition and `BranchSearch.Run` is the whole loop.
  - An iteration picks a node, solves a copy of its relaxation, classifies it, and then does one of three things:
    - ends the loop on a decided initial relaxation;
    - prunes the node (integral, infeasible, or not better than `bestLower`, ties included);
    - branches on it. Branching runs the optional Gomory cut round and creates two children bounded by floor and ceiling, with consecutive oids, which are solved and queued.
  - `Engine.BranchAndBound` is the loop itself. It works over the cut-pool, problem and id-counter objects and is proved to return `Run` of the initial state.
  - The search tree is a map from oid to (parent, prune annotation). Lemmas prove that every iteration keeps it a tree of older parents whose leaves are distinct, and that the incumbent is recorded exactly when `bestLower` is finite. They also cover the `getBranchDirection`/`getParentOid` conventions.
- **The older first-in-first-out revision in BranchAndBound.cpp** (`Fifo`).
  - It takes the queue front, branches on the first violated column, and stops after a branch with `count > 50`.
  - It is proved to keep the queue in creation order.
  - Its copy of `printInfo` has the same logic as the one in util.cpp, so both are modelled by `Util.PrintInfo`/`Util.Classify`.
- **The relaxation classifier and node records** (`Util`): `printInfo`, the `NodeData` constructor drawing from the global oid counter, and the strategy enumerations and `ParameterObj`.
- **The cut pool** (`CutPools`, cut.h/cut.cpp) and **Gomory mixed-integer cut generation** (`Gmi`, gmi.cpp): the per-entry coefficient rules, proved to be the GMI formulas, the running right-hand side, and the back-substitution. The back-substitution is modelled as written: each row value goes by its position in the sparse row list.
- **The keyed factory and dispatcher registry of message.h** (`Messages`), and the event and direction enumerations.
- **The command-line driver of 2test.cpp** (`Cli`): the extension is extracted by reversing, `find` and `substr`, including the `npos + 1` wrap to 0. The driver also handles help, no file, file type and the `-bs`/`-vs` range checks, with their exit codes.

GLPK is an oracle. A problem object is the record of its rows and column bounds (`Lp.Model`), and a solved relaxation is the value the `glp_get_*` getters would read (`Lp.Solved`). The bodies of `pickNode` and `pickVar` are not shown, so they are parameters. The loop relies only on `pickNode` returning an index of the container and `pickVar` returning one of the violated columns (`BranchSearch.Sound`).

Three behaviours of the code that the model keeps as written:

- **Integral initial relaxation.** An integral initial relaxation ends the loop with the root annotated INTG. `bestLower` stays -infinity and no incumbent is recorded (bs.cpp:145-150), unlike a non-initial integral node, which becomes the incumbent when it improves on `bestLower` (bs.cpp:175-193).
- **FIFO loop limit.** The FIFO revision's limit is a `break` after the push (BranchAndBound.cpp:193-195), so that loop returns 0. bs.cpp instead calls `std::exit(-1)` past its limit (bs.cpp:320-322).
- **`pregnant` event.** bs.cpp:121 sends a `pregnant` event that message.h:92-99 does not declare. `Messages.EventOfCode` follows the enum, and telemetry is left out.

## Model

| member | source | states |
|---|---|---|
| Numeric.Floor | bs.cpp:274 | floor(v) is the greatest integer not above v |
| Numeric.Ceil | bs.cpp:282 | ceil(v) is the least integer not below v |
| Numeric.Trunc | util.cpp:306 | trunc rounds toward zero, by less than 1, to a whole number |
| Numeric.TruncMovesExactlyFractions | util.cpp:306-307 | `trunc(x) != x` holds exactly when x is not a whole number |
| Numeric.Fract | gmi.cpp:55-56 | the fractional part lies in [0, 1) and differs from x by a whole number, also for negative x |
| Numeric.FloorCeilSplit | bs.cpp:274-282 | no integer lies strictly between floor(v) and ceil(v); they coincide iff v is whole, otherwise differ by one |
| Lp.SetColBound | bs.cpp:274 | setting a column bound replaces that column's bound and leaves the rows and every other column unchanged |
| Lp.GlpProb.constructor | bs.cpp:115-117 | the scratch problem starts as a copy of the node's problem |
| Util.PruneCode | util.h:24 | the prune enumerators are INTG = 0, FEAS = 1, BNDS = 3 and NONE = 4, each code naming exactly one annotation |
| Util.PruneOfCode | util.h:24 | exactly the codes 0, 1, 3 and 4 name an annotation, each the one with that code, so no code is 2 and the codes are distinct |
| Util.VarStratOfCode | util.h:27 | exactly the codes 0, 1, 2 name a branching strategy, and each names the one whose code it is |
| Util.NodeStratOfCode | util.h:28 | exactly the codes 0, 1 name a node strategy, and each names the one whose code it is |
| Util.IdCounter.constructor | util.h:15 | the oid counter starts at 1 |
| Util.IdCounter.NewNode | util.cpp:11-23 | a new node takes the current counter value as oid, advances the counter by one, starts with bounds -inf/+inf, is not initial, and copies its parent problem |
| Util.ParameterObj.constructor | util.h:59-64 | parameters start at VO and DFS for the given problem |
| Util.ParameterObj.SetVarStrat | util.h:72 | sets the branching strategy and keeps the node strategy |
| Util.ParameterObj.SetNodeStrat | util.h:73 | sets the node strategy and keeps the branching strategy |
| Util.ParameterObj.SetStrategy | util.h:71 | sets both strategies |
| Util.ViolatedUpTo | util.cpp:298-314 | the collected columns are exactly the violated ones among 1..k, strictly ascending |
| Util.Classify | util.cpp:277-335 | infeasible iff the status is NOFEAS/INFEAS/UNBND; integral iff a solution exists and no column is violated; otherwise fractional with a non-empty ascending list of exactly the violated columns |
| Util.ZeroCoefficientNeverViolates | util.cpp:300 | a column with a zero objective coefficient is never reported as violated |
| Util.PrintInfo | util.cpp:277-335 | the column loop returns the status code and violated list of `Classify`; status 0 exactly when the list is non-empty |
| CutPools.CutRow | cut.cpp:40-43 | for a non-empty cut with matching vectors, the injected row holds the cut's entries from slot 1 on (`inds.size() - 1` of them), and the cut's bound as a lower bound |
| CutPools.Inject | cut.cpp:11-46 | empty pool gives -1 with nothing changed; otherwise one row is added; a negative id selects the latest cut; an id past the end fails and leaves the new row empty; an in-range cut is injected exactly when its vectors match and are non-empty, a size mismatch fails the assert, an empty cut fails with GLPK's row-length error; on success the row is the selected cut's |
| CutPools.CutPool.constructor | cut.h:22 | a pool starts empty |
| CutPools.CutPool.AddToPool | cut.cpp:6-9 | appends the cut and returns the new size, which is the cut's 1-based position |
| CutPools.CutPool.AddCutConstraint | cut.cpp:11-46 | its result and the problem afterwards are those of `Inject` on the pool |
| Gmi.IntegerCoefIsGmi | gmi.cpp:57-63 | the integer rule is min(f_j, f_0(1-f_j)/(1-f_0)) and lies in [0, f_0] |
| Gmi.ContinuousCoefIsGmi | gmi.cpp:64-70 | the continuous rule is max(a_j, -a_j f_0/(1-f_0)) and is never negative |
| Gmi.EntryCoefficient | gmi.cpp:55-70 | the branches over the column kind compute the MIR coefficient, which is non-negative for integer and continuous kinds |
| Gmi.ScanTableauRow | gmi.cpp:41-74 | the first loop leaves in the work array and rhs what the entry-by-entry scan specifies |
| Gmi.BackSubstituteRows | gmi.cpp:81-89 | the second loop leaves the work array as the row-by-row back-substitution specifies |
| Gmi.BackSubstituteIsPositional | gmi.cpp:81-89 | after back-substitution, slot m+k adds work[i] times the k-th listed value of every row i |
| Gmi.Cut3 | gmi.cpp:11-117 | a cut is produced iff column j is integer and basic (otherwise the no-cut marker); a produced cut has n+1 indices 0..n and its first value equal to its bound |
| Gmi.CutCoefficient | gmi.cpp:72-109 | a produced cut's coefficient k is the first-pass slot m+k plus the positional back-substitution sum, and its bound is the final running rhs |
| Gmi.GenerateCut3 | gmi.cpp:11-117 | the array implementation returns `Cut3` |
| Gmi.ClearWork | gmi.cpp:29-32 | the zeroing loop leaves every slot of the work array at 0 |
| Gmi.EmitCut | gmi.cpp:91-109 | the output lists indices 0..n, the final rhs at index 0 and slot m+i at index i, with the rhs as the bound |
| Messages.EventOfCode | message.h:92-99 | exactly the codes 0..5 name an event kind, each the one whose code it is |
| Messages.DirectionOfCode | message.h:101 | exactly the codes 0..2 name a direction L, R, M, each the one whose code it is |
| Messages.Register | message.h:19-21 | define reports true iff the key was absent; an existing key keeps its creator; the key set grows by the key; other keys are untouched |
| Messages.Lookup | message.h:23-31 | create succeeds iff the key is registered, then yielding the creator registered under it; otherwise the error is `invalid_argument` |
| Messages.LookupAfterRegister | message.h:19-31 | after a define, the key resolves to the new creator only if it was new, and every other key resolves as before |
| Messages.Factory.Define | message.h:19-21 | the registry and the returned flag are those of `Register` |
| Messages.Factory.Create | message.h:23-31 | on the object's registry: succeeds iff the key is registered, yields the registered creator, and otherwise fails with `invalid_argument` |
| Messages.DispatchRegistry.constructor | message.h:64-67 | the shared dispatcher factory starts empty |
| Messages.DispatchRegistry.Define | message.h:55-62 | a taken name fails with "already registered" and changes nothing; a free name is registered |
| Messages.DispatchRegistry.Create | message.h:51-53 | succeeds exactly for a registered name, yielding its dispatcher; an unregistered name fails with `NotRegistered` (`invalid_argument`) |
| Messages.DispatchRegistry.DefineEngineDispatchers | bs.cpp:55-68 | the three engine dispatchers are defined and created iff none of their names was taken; a taken LogDispatch fails at the first define |
| BranchSearch.GetBranchDirection | bs.cpp:43-52 | M iff oid <= 1, R iff oid > 1 is even, L iff oid > 1 is odd |
| BranchSearch.Erase | bs.cpp:196 | erasing position i keeps the other nodes in order and removes exactly that one |
| BranchSearch.Mark | bs.cpp:141 | only the picked node's annotation changes |
| BranchSearch.NewCuts | bs.cpp:250-255 | the cuts produced for columns 1..k all have length n+1 and none is the no-cut marker |
| BranchSearch.ColumnCut | bs.cpp:251-254 | column k contributes at most one cut: `generateCut3`'s result exactly when it is not the no-cut marker, with n+1 entries |
| BranchSearch.NewCutsStep | bs.cpp:250-255 | the cuts of columns 1..k are those of columns 1..k-1 followed by column k's |
| BranchSearch.CutRound | bs.cpp:249-258 | with cuts enabled the pool grows by the new cuts and the latest pooled cut becomes the scratch problem's last row; column bounds are unchanged; without cuts nothing changes |
| BranchSearch.Child | bs.cpp:269-288 | a child has a fresh oid, the scratch rows, the branching column bounded, and its own relaxation's objective as upper bound |
| BranchSearch.Picked | bs.cpp:102-103 | the picked index lies in the container |
| BranchSearch.Relaxation | bs.cpp:115-118 | the picked node's relaxation is well formed |
| BranchSearch.Grow | bs.cpp:290-298 | two children are queued after the rest and entered unpruned under the branched node; the counter moves by two |
| BranchSearch.Branch | bs.cpp:227-323 | the children bound the picked column by floor(v) and by ceil(v), with oids nextId and nextId+1, S2 first; the process exits with -1 iff count > 200000 |
| BranchSearch.Step | bs.cpp:97-327 | a decided initial relaxation halts with exit 0 and the root annotated; otherwise the picked node is erased and pruned or branched; `bestLower` never decreases and changes only on a strictly better integral node, whose oid and objective become the incumbent |
| BranchSearch.Run | bs.cpp:97-327 | the loop ends with exit 0, or -1 only after count passed the limit |
| BranchSearch.Init | bs.cpp:79-95 | the loop starts with the initial node alone (the input problem, +inf upper bound, -inf lower bound), as the tree root with no parent and no annotation, with no incumbent and an empty pool |
| BranchSearch.AddChildrenKeepsShape | bs.cpp:290-295 | adding two children under a tree node keeps the tree shaped |
| BranchSearch.EraseKeepsLeafSet | bs.cpp:196 | erasing keeps the leaves distinct tree nodes, none of them the erased one |
| BranchSearch.GrowKeepsValid | bs.cpp:290-298 | queuing two children keeps the state invariant |
| BranchSearch.GrowLeaves | bs.cpp:290-298 | queued children are distinct new tree nodes |
| BranchSearch.PruneKeepsValid | bs.cpp:159-226 | pruning keeps the state invariant |
| BranchSearch.StepKeepsValid | bs.cpp:97-327 | every iteration keeps the tree shaped, the leaves distinct tree nodes, the cuts well shaped and the incumbent recorded |
| BranchSearch.RunKeepsValid | bs.cpp:97-327 | the loop ends in a state satisfying the invariant |
| BranchSearch.RunBestLowerMonotone | bs.cpp:175-177 | `bestLower` never decreases over the loop |
| BranchSearch.InitIsValid | bs.cpp:79-88 | the initial state satisfies the invariant with every leaf unpruned |
| BranchSearch.RootDecidesAlone | bs.cpp:135-150 | an infeasible or integral initial relaxation ends the loop at once with exit 0, no incumbent, -inf `bestLower`, and the root annotated FEAS or INTG |
| BranchSearch.BranchStepShape | bs.cpp:227-298 | a branch step draws the next two oids, queues the children last in that order and enters both under the picked node |
| BranchSearch.StepMovesCounter | bs.cpp:227-298 | an iteration advances the node counter by two exactly when it branches, and leaves it alone otherwise |
| BranchSearch.StepKeepsOddGap | util.cpp:15-16 | oids are handed out in pairs after the root, so the distance to the next oid stays odd |
| BranchSearch.RunKeepsOddGap | util.cpp:15-16 | the distance stays odd over the loop |
| BranchSearch.SiblingDirections | bs.cpp:35-52 | a child pair numbered k, k+1 with k-1 odd is reported as R then L |
| BranchSearch.ChildDirections | bs.cpp:300-318 | with root oid 1 the floor child is reported R and the ceiling child L, with consecutive oids, and `getParentOid` gives the branched node for both |
| BranchSearch.ParentOidIsOlder | bs.cpp:26-33 | in a tree rooted at oid 1, `getParentOid` (`BranchSearch.GetParentOid`) gives a tree node older than the node, except at the root, which reports itself |
| BranchSearch.PathToRoot | bs.cpp:26-33 | following parents from any node reaches the root by decreasing oids; each link is `getParentOid`, and the root reports itself |
| Engine.GenerateCuts | bs.cpp:250-255 | the column loop adds exactly the produced cuts to the pool, in column order |
| Engine.PoolColumnCut | bs.cpp:251-254 | one column of the loop adds `generateCut3`'s cut to the pool exactly when one is produced |
| Engine.CutRoundOn | bs.cpp:249-258 | the pool and scratch problem afterwards are those of `CutRound` |
| Engine.MakeChildren | bs.cpp:269-288 | the two children are the `Child` values at consecutive counter values |
| Engine.BranchOn | bs.cpp:227-323 | the branch case leaves the container, tree, pool and counter as `Branch` specifies |
| Engine.Iterate | bs.cpp:97-327 | one pass of the loop body computes `Step` |
| Engine.SettleOn | bs.cpp:159-323 | after the erase, the loop body prunes, records an incumbent or branches as `Settle` specifies, exiting with -1 only at the loop limit |
| Engine.Prune | bs.cpp:159-226 | an integral node is marked INTG and becomes the incumbent only when its objective beats `bestLower`; an infeasible one is marked FEAS and a bounded one BNDS |
| Engine.BranchAndBound | bs.cpp:54-348 | the loop returns `Run` from the initial state, and the counter ends at the final next oid |
| Fifo.FifoInit | BranchAndBound.cpp:93-105 | the queue starts with the initial node alone, as the tree root, with -inf `bestLower` |
| Fifo.FifoChildren | BranchAndBound.cpp:172-184 | children copy the front's problem, bound the column by floor(v) and by ceil(v) with consecutive oids, and keep +inf upper bounds |
| Fifo.FifoStep | BranchAndBound.cpp:107-200 | a non-fractional initial node breaks with nothing changed; otherwise the front is popped and pruned (ties by bound included) or split on the first violated column with children pushed at the back; the loop breaks after a branch with count > 50; `bestLower` rises only on a strictly better integral node |
| Fifo.FifoStepProgress | BranchAndBound.cpp:193-199 | each continuing iteration spends the branch budget or shrinks the queue |
| Fifo.FifoInitIsValid | BranchAndBound.cpp:93-99 | the initial state satisfies the FIFO invariant |
| Fifo.RecordChildren | BranchAndBound.cpp:186-189 | recording two fresh children keeps the parent map a tree of older parents |
| Fifo.PushKeepsAscending | BranchAndBound.cpp:191-192 | pop then push keeps the queue in increasing oid order |
| Fifo.PushKeepsValid | BranchAndBound.cpp:158-192 | the branch case keeps the FIFO invariant |
| Fifo.PopKeepsValid | BranchAndBound.cpp:144-157 | the prune cases keep the FIFO invariant |
| Fifo.FifoStepKeepsValid | BranchAndBound.cpp:107-200 | every iteration keeps the FIFO invariant |
| Fifo.FifoRunKeepsValid | BranchAndBound.cpp:107-200 | the loop ends in a state satisfying the invariant |
| Fifo.FifoTakesInCreationOrder | BranchAndBound.cpp:108-114 | the next node taken was created after the current one, so nodes are solved in creation order |
| Fifo.FifoRunBestLowerMonotone | BranchAndBound.cpp:137-142 | `bestLower` never decreases over the loop |
| Fifo.FifoRootDecidesAlone | BranchAndBound.cpp:116-123 | an infeasible or integral initial relaxation ends the loop with the state untouched |
| Fifo.FifoIterate | BranchAndBound.cpp:107-200 | one pass of the loop body computes `FifoStep` |
| Fifo.FifoBranchAndBound | BranchAndBound.cpp:87-205 | the loop returns `FifoRun` from the initial state, and the counter ends at the final next oid |
| Cli.Reversed | 2test.cpp:60 | the reversal lists the characters back to front |
| Cli.LastDot | 2test.cpp:61 | the position of the last '.', or -1 exactly when there is none |
| Cli.Extension | 2test.cpp:58-62 | the extension is a suffix, empty iff the name has no '.', otherwise a '.' followed by dot-free text |
| Cli.ExtensionOfName | 2test.cpp:58-62 | a name ending in a "." followed by dot-free text has exactly that ending as its extension |
| Cli.ReverseInPlace | 2test.cpp:60 | `std::reverse` leaves the buffer reversed |
| Cli.Find | 2test.cpp:61 | `find` returns the first '.' position, or npos exactly when there is none |
| Cli.ReversedPrefix | 2test.cpp:61-62 | reversing the first k characters of the reversed name gives its last k characters |
| Cli.KeptPrefixIsExtension | 2test.cpp:61-62 | the prefix up to `find` + 1 (npos + 1 wrapping to 0), reversed back, is the extension |
| Cli.FileSuffix | 2test.cpp:58-62 | the reverse/find/substr/reverse sequence computes `Extension` |
| Cli.KindOf | 2test.cpp:65-73 | only exactly ".lp" and ".mps" select a reader |
| Cli.ExitCodeZeroIff | 2test.cpp:11-114 | `main` returns 0 iff it shows help, finds no file option, or gets a .lp/.mps file with strategy codes in range; it launches the engine exactly in the last case |
| Cli.LaunchCarriesCodes | 2test.cpp:75-105 | a launched run uses the given -bs and -vs codes, or DFS and VO when they are absent |
| Cli.KnownSuffixLaunches | 2test.cpp:58-68 | any name ending in ".lp" is read as LP and any ending in ".mps" as MPS, whatever dots come before |
| Cli.Drive | 2test.cpp:11-114 | the driver's early returns and setters produce `Decide`'s outcome and its exit code |
| Cli.ApplyOptions | 2test.cpp:75-105 | the -bs then -vs setters reject an out-of-range code with -1, and otherwise leave the parameter object holding the launched strategies |

## Left out

- GLPK (`glp_simplex`, `glp_copy_prob`, `glp_eval_tab_row`, the getters and setters) is not part of this model. It is an oracle function (`Env.solve`) and a record of rows and column bounds. Its guarantees on returned vectors are the predicate `Lp.WellFormed`.
- The bodies of `ParameterObj::pickNode`, `pickVar`, `setVarStrat`, `setNodeStrat`, `setStrategy` and `getStrategy` are not shown. The two picks are parameters. The setters are modelled by their declared meaning. `getStrategy` has no caller in the modelled code and is not modelled.
- `getFract`'s body is not shown. It is modelled as x - floor(x), which gives a negative value 1 + frac as described for it.
- tree.hh and its iterator arithmetic are not modelled, and the search tree is a map from oid to (parent, annotation). This leaves out three things:
  - the duplicate child of the root (bs.cpp:85-87, BranchAndBound.cpp:97-98);
  - the `++root` placement of children in `treeIndex` (bs.cpp:294-295, BranchAndBound.cpp:188-189), which after the first branch points oids at the wrong tree nodes;
  - the fact that the prune marks set through `root.node` therefore land on those nodes.
  The model records the intended parent and marks the picked node.
- Pretty-printing of the tree (tree_print.h, tree_print.cpp) is not modelled, as it is output only.
- Telemetry is not modelled: the IPC dispatcher's transport, `clearAll`, the `BaseMessagePOD` fields and timestamps, and every `write`. bs.cpp:121 uses `EventType::pregnant`, which message.h does not declare.
- Logging is not modelled: spdlog, `LogDispatch`/`DebugDispatch` output, `sstr`, and the verbosity options of 2test.cpp:37-55.
- The solution text (bs.cpp:183-193) depends on double-to-text conversion. The incumbent is recorded as the node's oid and objective value instead.
- BranchSearch.Step: `std::exit(-1)` at the loop limit ends the process. It is modelled as the loop ending with exit code -1.
- BranchSearch.Branch: the branching value `glp_get_col_prim(a, pick)` (bs.cpp:261) is read from the scratch problem after the cut round has added a row, without a new solve. The model takes it from the relaxation that was classified; GLPK's stored values after a row is added are not modelled.
- `params.IsCutEnabled()` (bs.cpp:249) is not declared in util.h. Whether cuts are enabled is the input `Env.cutsEnabled`.
- The `initial` argument of `printInfo` only selects log messages, so `Util.PrintInfo` has no such parameter.
- Fifo.FifoStep: every removal calls the shared pointer's destructor and then `pop()` (BranchAndBound.cpp:144-161), destroying the front twice. That is undefined behaviour. The model simply removes the front.
- Fifo.FifoStep: the front's `upperBound` assignments (BranchAndBound.cpp:129, 136) are made on a node that is popped in the same iteration. They are not observable and are not modelled.
- Gmi.Cut3: the source leaves a produced cut's `oid` uninitialised (gmi.cpp:12). The model gives it 0; only the comparison with -1 reads it.
- Gmi.Cut3: the model does not state that the cut is valid, i.e. that it excludes no integer-feasible point. It cannot be stated here, because the tableau row is an unconstrained input from GLPK. It is also not expected to hold for the code as written, since the back-substitution goes by position in the sparse row list (`Gmi.BackSubstituteIsPositional`) rather than by column index.
- Gmi.MirCoef: for a binary column neither rule applies and `temp` keeps its previous value (gmi.cpp:57-70). On the first entry that value is uninitialised, and the model starts it at 0.
- The debug printing of gmi.cpp (lines 76-79, 96-103) and the leaked buffers of its second loop are not modelled.
- Floating point is exact real arithmetic here. Rounding of `trunc`/`floor`/`ceil` near whole numbers and overflow are not modelled. NaN never arises in the compared quantities.
- `standard()` is never called. `initProblem` reads files and is the parameter `initProblem` of `Cli.Drive`. `getGlpTerm` is output only.
- BranchAndCut.cpp (the cut-round variant) is not part of this model. Its `addGomoryCut` only prints, and its loop has undefined behaviour (popping an empty queue, indexing empty `vars`, and no return value).
- Cli.Drive: `InputParser` is not part of this model. The options present, the text after `-f`, and the integers `std::stoi` reads after `-bs`/`-vs` are inputs. The exception `std::stoi` throws on non-numeric text is not modelled.
- Cli.FileSuffix: the name's length is required to be below `npos`, which every `std::string` satisfies.
- Messages.DispatchRegistry.DefineEngineDispatchers: `create` also calls the creator to build a fresh dispatcher object. The model returns which dispatcher kind is made.
- CutPools.CutRow: GLPK's other checks on a row (at most as many entries as columns, indices in range and distinct) are not modelled. The cuts `generateCut3` produces list columns 1..n once each.
- Concurrency: the engine is single-threaded, and the IPC server thread is not modelled.
