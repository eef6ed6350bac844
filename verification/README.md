# Haplo: verified model of the finite-element core

Haplo is a finite-element program: it reads or builds a meshing, numbers the unknowns of a model, assembles a symmetric
matrix in skyline storage, factorises it with or without a pool of threads, solves, and computes eigen bases. This project
models that chain, and two pieces of the kernel and network modules beside it, in Dafny, and proves what the chain promises
from end to end.

| part | files |
|---|---|
| skyline storage, LDLT factorisation, its threaded form, solving | `Skyline`, `Profile`, `Factor`, `Solver`, `Ldlt`, `Solve`, `FemSolver`, `VectorDot`, `RealSum`, `Matrices`, `Shortfalls` |
| eigen base | `Eigen` |
| thread pool, and the solver on the pool | `Pool`, `PoolInvariant`, `PoolRuns`, `PoolObject`, `PoolBlock`, `PoolFactor` |
| numbering of the unknowns | `Numbering`, `NumberingOrder`, `NumberingGoal`, `NumberingRun`, `NumberingFinish`, `NumberingCreate`, `NumberingLookup` |
| profile, assembly, boundary conditions, loads | `Assembly`, `SystemProfile`, `ElementMatrices`, `SystemMatrix`, `Constraint`, `GlobalSystem`, `ProblemSystem`, `ProblemSolution`, `Loads`, `PagedList` |
| meshings and groups, their merge and their files | `Meshing`, `MeshMerge`, `MeshRuns`, `MeshFile`, `MeshLoad`, `MeshSave`, `GroupFile` |
| MD5 | `Md5Block`, `Md5Words`, `Md5Stream`, `Md5Context`, `Md5Digest` |
| debugging allocator and block cache | `MemoryLedger`, `MemoryCache` |

`dafny verify dfyconfig.toml` checks everything.

## How the parts are modelled

* **Factorisation.** The array is overwritten in place by methods of the class `Solver.Matrix`, for any arithmetic
  (`Factor.Arith`), so that "threaded and sequential agree" is a statement about every rounding of every operation. What the
  factors mean is then proved for real numbers (`Ldlt`). A parallel block is a loop that advances any unfinished task by
  one column, in any order.
* **Pool.** One client and any number of workers are a state machine whose steps are the critical sections, the signals and
  the unsynchronised test of `alive`; a signal may wake any waiting thread or more than one, and spurious wake-ups are steps
  of their own. `PoolObject` shows that the sections are what the code does to the shared fields; `PoolBlock` runs the tasks
  of one block of the solver on that machine, `PoolFactor` chains the blocks with their sequential parts.
* **Numbering.** The tables are overwritten in place; proofs look at them as a value (`Tabled.T`). The invariant is that a
  ghost list has the unknowns in the order of their numbers. In `NumberingRun` and `Md5Context` the loops use an invariant or
  a block function through a ghost constant, with a lemma for each use, so that definitions stay out of the loops.
* **Conditions, elements, lists, vectors.** `bc.c`, `element.c`, `matrix.c` and `list.c` are not UTF-8 texts. The table cites
  the declaration in the header, or the call, and the third column ends with the lines of the body that is modelled.
* **Files.** A text is a sequence of characters and numbers; a number reads back as it was printed.

## Where the code differs from its intent

Each of these follows the code, and is proved together with the exact condition under which the intent is met.

* solver.c:151-155 called with `j_min=1` skips column 1 in rows that start at column 0: `Ldlt.FactorsMultiplyBack` has the
  term that is dropped, `Ldlt.OffDiagonalExactIff` and `Shortfalls.ProfileAvoidsSkipIff` say when it is zero, and
  `Ldlt.SameFactorsIff` when threaded and sequential results agree. The first block of the threaded form uses `j_min=0` in
  its sequential part and skips nothing there.
* solver.c:282 compares with `nb_threads`, not with the number of jobs: `Solver.BlocksStayInside`.
* solver.c:221 keeps the last singularity, matrix.h:72 announces the first: `Shortfalls.SingularityIsFirstIff`.
* matrix.c:153-170 copies a factorised matrix as one still to be factorised: `Shortfalls.MatrixCopy`,
  `Shortfalls.CopyStandsForSameIff`.
* numbering.c:133 gives missing nodes the table entry 1: `NumberingLookup.UndefinedNodeIsFirst`,
  `Loads.MissingNodeLoadsFirst`, `ProblemSolution.MissingNodeBreaks`.
* problem.c:279 passes the number of meshes for the number of nodes, which misses nodes or reads behind a table:
  `NumberingLookup.FindsIff`, `NumberingLookup.FewMeshesIff`, `NumberingLookup.ManyMeshesIff`.
* numbering.c:192-219 accepts conditions on unknowns that do not exist, and bc.c:980-1008 then computes with row -1:
  `NumberingCreate.Create`, `SystemProfile.NumberingFitsIff`, `SystemProfile.UnusedPart`; of conditions on a degree of
  freedom that no element carries it accepts some, and bc.c:995 reads a table that is not there, and refuses others:
  `SystemProfile.MissingTable`, `NumberingCreate.BlockedByMissingTable`.
* meshing.c:235 overwrites the internal number of a redefined node: `Meshing.AlignedAfterIff`.
* meshing.c:220-221 does not raise the next automatic number for explicit ones, so that loaded and merged meshings start
  again at 1: `Meshing.AutomaticCollidesIff`, `Meshing.AutomaticOverwrites`, `MeshMerge.MergeKeepsNodesIff`, `MeshSave.LoadedNumbersCollideIff`.
* meshing.c:923-927 and 1146-1150 double a buffer once: `MeshMerge.BufferHoldsIff`, `MeshMerge.SixteenFit`,
  `MeshMerge.SeventeenOverrun`.
* list.c:402-422 leaves the counts of a copied list at zero, so that load.c:345-353 drops its first operand:
  `PagedList.CopyIsEmpty`, `Loads.MergedIsSumIff`.
* bc.c:1055-1062 stores the coefficients of a condition one over the other when it names an unknown twice, which
  bc.c:452-496 and bc.c:566-597 let through: `Constraint.NothingOverwrittenIff`,
  `ProblemSolution.SolutionMeetsConditions`, `ProblemSolution.RepeatedUnknown`.
* element.c:571-592 adds the entry between two rows of an element that are the same row of the system once instead of
  twice: `ElementMatrices.DiagonalIff`, `ElementMatrices.RepeatedRow`.
* bc.c:1081-1115 may return zero for an indefinite diagonal, and then imposes no condition:
  `GlobalSystem.SolutionMeetsConditionIff`, `GlobalSystem.NoAlphaNoCondition`.
* group.c:406-424 writes an empty group that loads as no group: `GroupFile.GroupRoundTrip`.
* identity.c:349-365 computes the second digit from the first one: `Md5Digest.SecondDigitIff`.
* memory.c:431-433 does not record the maximum after a reallocation: `MemoryLedger.MaxAfterIff`,
  `MemoryLedger.PeakKeptIff`.

## Model

| member | source | states |
|---|---|---|
| `Skyline.PositionInjective` | modules/fem/src/solver.c:71-73 | Two entries of the profile never share a storage cell. |
| `Skyline.PositionSurjective` | modules/fem/src/solver.c:71-73 | Every storage cell belongs to an entry of the profile, found from the offsets. |
| `Skyline.EqualOnProfile` | modules/fem/src/solver.c:71-73 | Two coefficient arrays that agree on all entries of the profile are equal. |
| `Profile.FinishProfile` | modules/fem/src/problem.c:184-185 | The prefix sums, in place, turn any half-bandwidths with profile[i] <= i into a layout whose FIRST(i) is i - profile[i]. |
| `Profile.PackedExactly` | modules/fem/src/problem.c:184-185 | The offsets number the entries of the profile without gap or repetition. |
| `Factor.ColumnUpdateCorrect` | modules/fem/src/solver.c:142-172 | A column update is right whenever the columns before it are, in row i and in row j; rows other than i keep what they hold. |
| `Factor.FactorsUnique` | modules/fem/src/solver.c:142-226 | Two arrays that both hold the finished rows are the same array. |
| `Factor.SameFactors` | modules/fem/src/solver.c:181-185 | In any arithmetic, threaded and sequential factorisation leave the same coefficients and the same singularity, when in the rows where only one of them skips column 1 that update would change nothing. |
| `Solver.Matrix.LineFactorize` | modules/fem/src/solver.c:142-172 | Starting behind column max(FIRST(i), j_min), the loop brings row i from column state to column j_max, touching row i only. |
| `Solver.Matrix.LineFinish` | modules/fem/src/solver.c:195-226 | Scaling by the pivots, the diagonal and the singularity test leave the finished row; the field singularity takes the row number plus one when the pivot is replaced. |
| `Solver.Matrix.FactorizeSequential` | modules/fem/src/solver.c:349-369 | After the loop all rows are finished, the state is LDLT and singularity is the last blocked row. |
| `Solver.Matrix.FactorizeThreaded` | modules/fem/src/solver.c:251-324 | For every number of threads that fits, whatever the order in which the tasks of a block take their steps, all rows end up finished. |
| `Solver.Matrix.RunTasks` | modules/fem/src/solver.c:288-299 | Tasks of a block, advanced one column at a time in any order, bring all rows of the block to the columns before it. |
| `Solver.Matrix.TaskStep` | modules/fem/src/solver.c:181-185 | One step of one task keeps what all tasks of the block rely on. |
| `Solver.Matrix.FinishBlock` | modules/fem/src/solver.c:304-309 | The sequential part finishes all rows of a block. |
| `Solver.BlockStep` | modules/fem/src/solver.c:181-185 | A step of one task leaves the rows of the other tasks and the finished rows alone. |
| `Solver.BlocksStayInside` | modules/fem/src/solver.c:276-283 | The clamp on the last block keeps all rows in range if and only if (size-1) modulo 2*nb_threads is below nb_threads. |
| `Ldlt.RegularIff` | modules/fem/src/solver.c:213-223 | With a positive threshold all final pivots are nonzero if and only if the first one is. |
| `Ldlt.RowEquation` | modules/fem/src/solver.c:142-172 | Below the diagonal each row of the factorisation sums to the original entry plus what was skipped in column 1. |
| `Ldlt.DiagonalEquation` | modules/fem/src/solver.c:203-211 | The running diagonal plus the terms already subtracted is the original diagonal. |
| `Ldlt.FactorsMultiplyBack` | modules/fem/src/solver.c:349-369 | L.D.transpose(L) is the matrix, plus the skipped updates of column 1, plus a shift on the diagonal of those rows behind the first for which |s| < eps, s being the original diagonal entry minus what the factors before it account for; there the pivot is 1/eps^2. |
| `Ldlt.PivotRule` | modules/fem/src/solver.c:203-223 | For every row behind the first let s be the original diagonal entry minus what the factors already account for: the pivot is s when s is at most -eps or at least eps, and 1/eps^2 when it lies strictly between. |
| `Ldlt.SingularityRule` | modules/fem/src/solver.c:215-222 | The field `singularity` is the number, from 1, of the last row whose s lies strictly between -eps and eps, or what it was before when there is none. |
| `Ldlt.DiagonalExact` | modules/fem/src/solver.c:203-223 | L.D.transpose(L) has the original entry on the diagonal of every row whose s does not lie there. |
| `Ldlt.ShiftIsReplacement` | modules/fem/src/solver.c:215-222 | What is added to the diagonal elsewhere is the pivot minus s. |
| `Ldlt.FactoredPivots` | modules/fem/src/solver.c:213-224 | Every pivot left in the array can be divided by. |
| `Ldlt.OffDiagonalExactIff` | modules/fem/src/solver.c:151-155 | The product is exact off the diagonal if and only if no row from the skipping one on has an entry in column 0 while row 1 has one. |
| `Ldlt.SameFactorsIff` | modules/fem/src/solver.c:181-185 | On exact reals the threaded and the sequential result agree if and only if the rows where only one of them skips have nothing to lose. |
| `Shortfalls.SkippedColumnShows` | modules/fem/src/solver.c:151-155 | A full 3 by 3 matrix whose factors do not multiply back. |
| `Shortfalls.ProfileAvoidsSkipIff` | modules/fem/src/solver.c:349-369 | For coefficients that are all nonzero the factors are exact off the diagonal if and only if FIRST(1) is 1 or FIRST(i) is at least 1 for all later rows. |
| `Shortfalls.AvoidingProfileIsExact` | modules/fem/src/solver.c:349-369 | With such a profile they are exact for all coefficients. |
| `Shortfalls.BlockOverrun` | modules/fem/src/solver.c:282-283 | Four rows and two threads: the block has one job too many. |
| `Shortfalls.OverrunIsPeriodic` | modules/fem/src/solver.c:282-283 | A size fits exactly when the size increased by nb_threads does not. |
| `Shortfalls.SingularityIsFirstIff` | modules/fem/include/fem/matrix.h:72 | The field announced as the first singularity holds it exactly when there is at most one; solver.c keeps the last. |
| `Shortfalls.SecondSingularityKept` | modules/fem/src/solver.c:213-224 | The diagonal matrix 1, 0, 0 ends with row 3, not row 2. |
| `Shortfalls.MatrixCopy` | modules/fem/include/fem/matrix.h:67-93 | The copy has the same coefficients and singularity, but always the state of a matrix that is not factorised. Body: matrix.c:153-170. |
| `Shortfalls.CopyStandsForSameIff` | modules/fem/include/fem/matrix.h:67-93 | What the factors stand for and what the copy, read as a matrix, stands for are the same if and only if all factors off the diagonal are zero. Body: matrix.c:153-170. |
| `Shortfalls.CopyOfFactorsDiffers` | modules/fem/include/fem/matrix.h:67-93 | A 2 by 2 input for which they are not. Body: matrix.c:153-170. |
| `Solve.Descend` | modules/fem/src/solver.c:389-420 | The forward loop leaves z with b = z + (strict lower part of L).z, for every right-hand side. |
| `Solve.Scale` | modules/fem/src/solver.c:389-420 | The middle loop divides by the pivots. |
| `Solve.Ascend` | modules/fem/src/solver.c:389-420 | The backward loop leaves v with z = v + (strict upper part of transpose(L)).v. |
| `Solve.Invert` | modules/fem/src/solver.c:389-420 | The three loops in place solve L.D.transpose(L).x = b for the factors stored. |
| `Solve.LdltVector` | modules/fem/src/matrix.h:40-41 | The three passes multiply a vector by L.D.transpose(L). Body: matrix.c:505-528. |
| `Solve.SolveThenMultiply` | modules/fem/src/solver.c:389-420 | Multiplying what the solver returns by the same factors gives back the right-hand side. Body: matrix.c:505-528. |
| `FemSolver.FactorsSolvePerturbed` | modules/fem/src/solver.c:426-453 | A vector that solves the system of the factors solves the given matrix with, on the diagonal, the pivot in place of what the factors leave wherever that is negligible, and with the skipped updates. |
| `FemSolver.SolvedAsGiven` | modules/fem/src/solver.c:426-453 | The pivots follow the singularity test; when no s is negligible and no skipped update has anything to skip, the vector solves the matrix that was given. |
| `FemSolver.SolveInPlace` | modules/fem/src/solver.c:426-453 | A matrix already factorised is not factorised again; otherwise it is, sequentially or with threads, and its pivots and `singularity` are what the test |s| < epsilon makes them; either way the vector becomes the solution for the stored factors. |
| `FemSolver.Threshold` | modules/fem/src/solver.c:472-475 | The threshold is the norm of the diagonal times DBL_EPSILON times the norm of b, and positive when D(0) and b are not zero. Body: matrix.c:941-957. |
| `FemSolver.FemSolverThreaded` | modules/fem/src/solver.c:458-479 | The vector returned solves every matrix that has the stored factors, and the very matrix given when no pivot was replaced and nothing was skipped; the pivots follow the singularity test; b is unchanged; a size mismatch changes nothing; a later call uses the same factors. |
| `VectorDot.VectorDotN` | modules/fem/src/matrix.h:43-44 | Four accumulators, an unrolled loop and a fall-through switch compute the plain scalar product, for every length. Body: matrix.c:865-909. |
| `VectorDot.Residue` | modules/fem/src/matrix.h:43-44 | The switch adds the products left over. Body: matrix.c:893-898. |
| `VectorDot.MatrixVector` | modules/fem/src/matrix.h:40-41 | One pass over the packed lower triangle multiplies by the full symmetric matrix. Body: matrix.c:534-558. |
| `Eigen.OrthoSub` | modules/fem/src/eigen.c:97-106 | A multiple of v is subtracted from every coordinate. |
| `Eigen.DeflateStep` | modules/fem/src/eigen.c:97-106 | Subtracting the component along one vector of an orthonormal family removes it and leaves the components along the others. |
| `Eigen.Ortho` | modules/fem/src/eigen.c:112-123 | After the loop the vector has lost exactly its components along all vectors found so far, and is orthogonal to them for the mass matrix. |
| `Eigen.Turn` | modules/fem/src/eigen.c:183-195 | One turn solves the system for the last product, takes the components along the vectors found so far out of the solution, and computes a = u.M.u and the product of u with the right-hand side. |
| `Eigen.Iterations` | modules/fem/src/eigen.c:171-199 | From the product of the mass matrix with the start the loop makes a chain of exactly as many turns as allowed, unless some u.M.u is not positive: each turn solves for its right-hand side and deflates, and the next right-hand side times the root of u.M.u is M.u. |
| `Eigen.ChainGrows` | modules/fem/src/eigen.c:183-198 | One more turn from the last vector over its root continues the chain. |
| `Eigen.NormalisedExtends` | modules/fem/src/eigen.c:200-202 | A deflated vector divided by the root of a extends an orthonormal family. |
| `Eigen.SolveOne` | modules/fem/src/eigen.c:151-212 | The vector returned is the last u of the chain of exactly `turns` turns that begins with the product of the mass matrix with the start, divided by the root of u.M.u, and the value is u.g over u.M.u; it extends the orthonormal family. Without a vector the chain ends with a u.M.u that is not positive. |
| `Eigen.EigenSolve` | modules/fem/src/eigen.c:218-229 | Every vector is what its own start arrives at after exactly its own number of turns, with the vectors before taken out; all are orthonormal for the mass matrix; the first value is the Rayleigh quotient of the first vector, and every value found in two turns or more is w.K.w divided by u.M.u, for the last solution w and its deflated form u. No result means that some chain came to a u.M.u that is not positive. |
| `Eigen.IteratedValues` | modules/fem/src/eigen.c:190-203 | The two statements on values follow from the chains. |
| `Eigen.RateIsEnergy` | modules/fem/src/eigen.c:151-216 | When no vector found so far has a component in the right-hand side g, u.g is w.K.w for the solution w before the deflation. |
| `Eigen.NextIsPerpendicular` | modules/fem/src/eigen.c:151-216 | From the second turn on none has. |
| `Eigen.FirstValue` | modules/fem/src/eigen.c:190-203 | The value computed without deflation is the quotient of the stiffness form by the mass form of the vector. |
| `Eigen.FemEigenNew` | modules/fem/src/eigen.c:235-263 | The number of vectors is the one asked for, put between 1 and the size; matrices of different size are refused untouched, the stiffness is factorised with two threads if it was not yet and left alone otherwise, and vectors and values are those of the iterations of eigen_solve for it. |
| `FemSolver.SolverFactorize` | modules/fem/src/solver.c:375-382 | Two threads and the matrix epsilon factorise a matrix that is not factorised yet, with pivots that follow the singularity test, and nothing happens to one that is. |
| `FemSolver.MatrixEpsilon` | modules/fem/src/solver.c:375-379 | The norm of the diagonal times DBL_EPSILON, positive when D(0) is not zero. Body: matrix.c:1031-1042. |
| `PoolInvariant.InitialInv` | kernel/libhaplo/pool.c:126-159 | A new pool satisfies the invariant. |
| `PoolInvariant.KeepsRing` | kernel/libhaplo/pool.c:58-113 | Cells head to head+pending-1 of the ring hold exactly the queued tasks, oldest first, after every step of any thread. |
| `PoolInvariant.TakeKeepsTasks` | kernel/libhaplo/pool.c:66-89 | The worker that takes a task holds the oldest one, and nobody else does. |
| `PoolInvariant.KeepsTasks` | kernel/libhaplo/pool.c:58-113 | Every started task is finished or held by exactly one worker, after every step. |
| `PoolInvariant.KeepsAwake` | kernel/libhaplo/pool.c:66-70 | A pending task keeps a worker awake or the client owes the push signal. |
| `PoolInvariant.KeepsPopOwed` | kernel/libhaplo/pool.c:172-189 | A client waiting for a slot is owed the signal as soon as there is one. |
| `PoolInvariant.KeepsFinishOwed` | kernel/libhaplo/pool.c:197-205 | A client waiting for the end is owed the signal as soon as everything has ended. |
| `PoolInvariant.KeepsLife` | kernel/libhaplo/pool.c:213-235 | Once the pool is dead one phantom entry stays pending, nothing runs, and exits follow. |
| `PoolInvariant.KeepsInv` | kernel/libhaplo/pool.c:58-235 | All of this holds in every state reachable by any interleaving, spurious wake-ups included. |
| `PoolRuns.StartedInOrder` | kernel/libhaplo/pool.c:172-189 | Over every run the tasks are started once each, in the order in which they were submitted. |
| `PoolRuns.RingIsQueue` | kernel/libhaplo/pool.c:172-189 | What the ring stores is the queue of submitted tasks not started yet. |
| `PoolRuns.Balance` | kernel/libhaplo/pool.c:58-113 | submitted = finished + running + pending, with 0 <= pending <= nb_slots and 0 <= running <= nb_threads, before shutdown. |
| `PoolRuns.WaitMeansDone` | kernel/libhaplo/pool.c:197-205 | When the waiting client is let go every submitted task is done. |
| `PoolRuns.Progress` | kernel/libhaplo/pool.c:58-235 | No reachable state is stuck: while a call is in progress some thread can take a step. |
| `PoolRuns.StepCost` | kernel/libhaplo/pool.c:58-235 | Every step towards the end of a call decreases a measure; a spurious wake-up costs one. |
| `PoolRuns.RunBounded` | kernel/libhaplo/pool.c:213-235 | Every call returns: a run without new calls has a bounded number of steps beyond its spurious wake-ups. |
| `PoolRuns.DeadRunsNothing` | kernel/libhaplo/pool.c:213-235 | After alive = 0 no task is ever picked up and the phantom entry is never consumed. |
| `PoolObject.ThreadPool.TakeSection` | kernel/libhaplo/pool.c:66-89 | The first critical section of pool_do on the shared fields is the step of the protocol. |
| `PoolObject.ThreadPool.PushSection` | kernel/libhaplo/pool.c:172-189 | The critical section of haplo_pool_run on the shared fields is the step of the protocol. |
| `PoolObject.ThreadPool.FinishSection` | kernel/libhaplo/pool.c:101-104 | The second critical section of pool_do is the step of the protocol. |
| `PoolObject.ThreadPool.KillSection` | kernel/libhaplo/pool.c:226-230 | The critical section of haplo_pool_free is the step of the protocol. |
| `PoolBlock.BlockOnPool` | modules/fem/src/solver.c:288-299 | The solver on the pool: in every interleaving of pool and column steps, when haplo_pool_wait returns every row of the block has its columns before the block, and all other rows are as they were. |
| `PoolBlock.RowsDistinct` | modules/fem/src/solver.c:288-297 | No two workers ever execute the same row. |
| `PoolBlock.BlockProgress` | modules/fem/src/solver.c:288-299 | A block cannot get stuck. |
| `PoolBlock.ActionCost` | modules/fem/src/solver.c:288-299 | Every step of a block decreases a measure, so that the block ends. |
| `PoolFactor.FactorOnPool` | modules/fem/src/solver.c:251-324 | Over all blocks of a factorisation, whatever the interleavings of pool and tasks in each, the matrix ends up factorised and singularity is the last blocked row, as without a pool. |
| `PoolFactor.FactorizeOnPool` | modules/fem/src/solver.c:251-324 | The loop over the blocks, with any interleaving of each block carried out action by action and the sequential part of the code behind it, computes exactly those factors and that singularity. |
| `PoolFactor.NewPoolRests` | kernel/libhaplo/pool.c:126-159 | A new pool is in the state from which the blocks start. |
| `NumberingFinish.NewTable` | modules/fem/src/numbering.c:120-136 | A new table holds zeros and a last entry 1 for nodes that do not exist. |
| `NumberingFinish.Update` | modules/fem/src/numbering.c:162-186 | A table exists exactly for the degrees of freedom some element has, with 1 exactly at the nodes of those elements. |
| `NumberingFinish.BcCompare` | modules/fem/src/bc.h:58-60 | Conditions compare by their smallest node, then their smallest degree of freedom there, then their place in the list. Body: bc.c:666-736. |
| `NumberingRun.Multipliers.L1` | modules/fem/src/bc.h:62-65 | First multipliers get the next numbers, one after the other, while the next condition involves the unknown visited. Body: bc.c:812-861. |
| `NumberingRun.Multipliers.L2` | modules/fem/src/bc.h:66-67 | Second multipliers get the next numbers for all conditions with no unknown to come, the swaps included; the others all wait. Body: bc.c:870-937. |
| `NumberingRun.Multipliers.IsClosed` | modules/fem/src/bc.h:66-67 | The test of __fem_bc_numbering_l2 finds a part that is still open if there is one. Body: bc.c:882-898. |
| `Numbering.PlaceNext` | modules/fem/src/numbering.c:250-262 | Handing out the next number keeps all numbers different and in order. |
| `NumberingOrder.OrderDof` | modules/fem/src/numbering.c:250-262 | Numbering the unknown visited keeps first multipliers before and second multipliers after the unknowns of their conditions. |
| `NumberingOrder.OrderSecond` | modules/fem/src/numbering.c:270-271 | So does handing out a second multiplier and swapping the condition forward. Body: bc.c:900-933. |
| `NumberingOrder.NothingWaits` | modules/fem/src/numbering.c:225-284 | When all parts of all conditions have a table and sit at existing nodes every condition has both multipliers at the end. |
| `NumberingFinish.Visit` | modules/fem/src/numbering.c:243-271 | One turn of the inner loop numbers first multipliers, the unknown and second multipliers consecutively. |
| `NumberingCreate.FinishLambda` | modules/fem/src/numbering.c:192-219 | The error count is zero if and only if no multiplier is missing. |
| `NumberingCreate.Create` | modules/fem/src/numbering.c:327-347 | There is no error if and only if the visits meet the conditions in their sorted order, no part with a table sits at a missing node, and no condition names the unknown that gets number 1; when all parts have a table, if and only if all their nodes exist. Then the active unknowns and both multipliers of every condition are numbered by a bijection onto 1..dof+2*bc, for all elements and conditions, and conditions whose parts all have tables lie between their multipliers. |
| `NumberingGoal.WaitsIff` | modules/fem/src/bc.h:66-67 | At the end a condition waits for its second multiplier if and only if a part with a table sits at a missing node, or has number 1. Body: bc.c:870-937. |
| `NumberingCreate.BlockedByMissingTable` | modules/fem/src/bc.h:62-65 | A condition that names a degree of freedom without table is sorted first and keeps another one from being met: an error, although all other parts exist. Body: bc.c:812-861. |
| `NumberingCreate.BijectionMeans` | modules/fem/src/numbering.c:225-284 | No two unknowns share a number, and every number is taken. |
| `NumberingLookup.Global` | modules/fem/src/numbering.c:381-398 | The number of an active unknown, 0 for an inactive one, and 1 for a node that does not exist. |
| `NumberingLookup.BreakIsSound` | modules/fem/src/numbering.c:429-440 | Leaving the search at the first larger number misses nothing, because numbers rise with the node. |
| `NumberingLookup.Local` | modules/fem/src/numbering.c:413-467 | For every count of nodes: the unknown with this number, nothing, or a read behind a table, as soon as the first table searched says so. |
| `NumberingLookup.RoundTrip` | modules/fem/src/numbering.c:381-467 | Local and global numbering undo each other. |
| `NumberingLookup.FindsIff` | modules/fem/src/numbering.c:413-467 | For every count, the search for a number finds the unknown that has it if and only if that lies among the nodes counted and every table searched before is left in time, by a larger number or by the count. |
| `NumberingLookup.FewMeshesIff` | modules/fem/src/problem.c:276-280 | With no more meshes than nodes the wrong count finds every unknown if and only if no node with unknowns lies behind it. |
| `NumberingLookup.ManyMeshesIff` | modules/fem/src/problem.c:276-280 | With two meshes more than nodes, or still more, it does so if and only if each earlier degree of freedom is carried by a later node, and each table holds a number beyond those of all multipliers. |
| `NumberingLookup.TenMeshesOverrun` | modules/fem/src/problem.c:276-280 | Three nodes, two degrees of freedom, ten meshes: the search for the last unknown reads behind the first table. |
| `NumberingLookup.UndefinedNodeIsFirst` | modules/fem/src/numbering.c:130-133 | The number reported for a missing node belongs to the first unknown. |
| `Assembly.ElementProfile` | modules/fem/src/element.h:96-99 | After the loops over pairs of nodes every two unknowns of the element reach each other, and the profile grew for no other reason. Body: element.c:483-509. |
| `Assembly.ElementsProfile` | modules/fem/src/problem.c:170-174 | The profile covers all couplings of all elements, and every width is one of them. Body: element.c:483-509. |
| `Assembly.ConditionProfile` | modules/fem/src/bc.h:72-75 | The rows of a condition reach its first multiplier and the second multiplier reaches all of them. Body: bc.c:980-1008. |
| `SystemProfile.ConditionsProfile` | modules/fem/src/problem.c:177-180 | No condition shortens what another condition or an element needs. Body: bc.c:1014-1031. |
| `SystemProfile.ProblemProfile` | modules/fem/src/problem.c:155-190 | Every entry elements and conditions will write has a place in the storage. |
| `SystemProfile.NumberingFitsIff` | modules/fem/src/numbering.c:225-284 | After any numbering without error the profile loops stay inside the tables and the matrix if and only if every part of every condition is an unknown that exists. |
| `SystemProfile.UnusedPart` | modules/fem/src/numbering.c:192-219 | Two nodes and a condition on a part without unknown: numbered without error, and its row is -1. |
| `SystemProfile.MissingTable` | modules/fem/src/numbering.c:192-219 | One node, and a condition on its unknown and on a degree of freedom without table: numbered without error. |
| `SystemMatrix.UpdateEntry` | modules/fem/src/element.h:101-105 | Both halves of the matrix are one cell, which receives the value. Body: element.c:543-552. |
| `SystemMatrix.NthDof` | modules/fem/src/element.h:101-105 | The degree of freedom returned is in the set and has n smaller ones. Body: element.c:519-537. |
| `SystemMatrix.ElementRows` | modules/fem/src/element.h:101-105 | Row i of an element matrix belongs to degree of freedom i modulo nb_dof at node i divided by nb_dof. Body: element.c:559-595. |
| `SystemMatrix.RowAtNode` | modules/fem/src/element.h:101-105 | Row nb_dof.k + r is that of the degree of freedom of node k with r smaller ones in the set. Body: element.c:519-537 and 571-589. |
| `ProblemSystem.ElementUnknown` | modules/fem/src/element.h:101-105 | That row of the system is the row of this very unknown in the numbering. Body: element.c:571-589. |
| `SystemMatrix.UpdateMatrix` | modules/fem/src/element.h:101-105 | For the symmetric matrix m whose entries m(0,0), m(1,0), m(1,1), m(2,0), .. are the buffer, entry (r,k) of the system receives the sum of m(a,b) times the weight over all rows a of the element that are r and all b that are k; on the diagonal, over a >= b. Body: element.c:559-595. |
| `ElementMatrices.PackedAt` | modules/fem/src/element.h:101-105 | Entry (p,q) of a matrix packed row by row is at place p(p+1)/2 + q, as a recursive count. Body: element.c:571-592. |
| `ElementMatrices.EntriesRepresent` | modules/fem/src/element.h:101-105 | Every buffer of the right size is that of a symmetric matrix. Body: element.c:571-592. |
| `ElementMatrices.ScatterIsGathered` | modules/fem/src/element.h:101-105 | The loop over the buffer gives every entry of the system the sum over the entries of m. Body: element.c:571-592. |
| `ElementMatrices.GatheredOnce` | modules/fem/src/element.h:101-105 | When the unknowns of an element differ, that sum is m(a,b) for the entry of row a and row b. Body: element.c:571-592. |
| `ElementMatrices.DiagonalIff` | modules/fem/src/element.h:101-105 | On the diagonal it is the sum over all pairs of rows that are r if and only if the entries between different ones cancel. Body: element.c:571-592. |
| `ElementMatrices.RepeatedRow` | modules/fem/src/element.h:101-105 | With both rows of ((1 1)(1 1)) the same row of the system, 3 is added and not 4. Body: element.c:571-592. |
| `ElementMatrices.ScatterOnce` | modules/fem/src/element.h:101-105 | When the unknowns of an element differ, each of its entries is added to one entry, once. Body: element.c:559-595. |
| `SystemMatrix.AddElement` | modules/fem/src/element.h:101-105 | No update ever leaves the storage. Body: element.c:559-595. |
| `GlobalSystem.AssembleElements` | modules/fem/src/problem.c:192-197 | Each entry of the system is the sum over the elements of the entries of their matrices, read row by row, between the rows and columns it stands for, times the weights. Body: element.c:719-730. |
| `GlobalSystem.NothingElsewhere` | modules/fem/src/problem.c:192-197 | Rows that belong to no element stay empty. Body: element.c:719-730. |
| `Constraint.ConditionMatrix` | modules/fem/src/bc.h:76-79 | The rows of the multipliers hold the last coefficient of each unknown of the condition, twice, and the multipliers against each other, and nothing else changes. Body: bc.c:1037-1075. |
| `GlobalSystem.ConditionsMatrix` | modules/fem/src/problem.c:212-215 | All conditions at once, none disturbing another or the elements. Body: bc.c:1121-1143. |
| `GlobalSystem.Alpha` | modules/fem/src/problem.c:212-215 | Half way between the largest and smallest diagonal coefficient that counts, and positive when the diagonal is not negative. Body: bc.c:1081-1115. |
| `GlobalSystem.ConditionsVector` | modules/fem/src/problem.c:243-246 | The right-hand side holds beta times the value at both multipliers, zero elsewhere. Body: bc.c:1172-1187. |
| `Constraint.ConditionHolds` | modules/fem/src/bc.h:76-81 | A vector that satisfies the two multiplier rows satisfies the condition with the last coefficient of each unknown, and its two multipliers are equal. Body: bc.c:1037-1075. |
| `Constraint.NothingOverwrittenIff` | modules/fem/src/bc.h:76-79 | That is the condition as it is written, for every vector, if and only if the coefficients overwritten on each row add up to zero. Body: bc.c:1055-1062. |
| `GlobalSystem.SolutionMeetsConditionIff` | modules/fem/src/problem.c:206-219 | Whatever the elements and the coefficients, a solution meets what is kept of a condition if and only if the right-hand sides of its two multipliers add up to twice beta times the value, and the condition as written if and only if they do so together with the terms overwritten, when alpha is not zero. |
| `ProblemSolution.ProblemVector` | modules/fem/src/problem.c:233-253 | The right-hand side holds beta times the value at both multipliers of each condition, and the loads. |
| `ProblemSolution.SolutionMeetsIff` | modules/fem/src/problem.c:206-253 | For the matrix and the right-hand side assembled, every solution meets what is kept of a condition if and only if the loads that went to its two multipliers cancel, and the condition as written if and only if they cancel the terms overwritten. |
| `ProblemSolution.SolutionMeetsConditions` | modules/fem/src/problem.c:206-253 | With loads on existing nodes only, every solution of that system meets what is kept of every condition, and a condition as written if and only if the terms of parts whose unknown is named again later add up to zero. |
| `ProblemSolution.DistinctPartsKept` | modules/fem/src/bc.h:76-79 | They do when every unknown is named once. Body: bc.c:1055-1062. |
| `ProblemSolution.RepeatedUnknown` | modules/fem/src/bc.h:76-79 | DX5-DX5=0 fixes DX5 at zero, DX5+DX5=2 fixes it at two. Body: bc.c:566-597 and 1055-1062. |
| `ProblemSolution.MissingNodeBreaks` | modules/fem/src/problem.c:233-253 | A load on a missing node breaks what is kept of the condition whose first multiplier has number 1, in every solution. |
| `GlobalSystem.NoAlphaNoCondition` | modules/fem/src/problem.c:212-215 | When alpha is zero the rows of the multipliers are empty and no condition is imposed. Body: bc.c:1081-1143. |
| `GlobalSystem.AlphaCancels` | modules/fem/src/problem.c:212-215 | For the diagonal 1, -1 alpha is zero. Body: bc.c:1081-1115. |
| `ProblemSystem.ProblemGsm` | modules/fem/src/problem.c:155-218 | From a finished numbering to the matrix: layout, sum of elements, conditions. |
| `ProblemSystem.SystemSums` | modules/fem/src/problem.c:155-218 | Between unknowns that are no multipliers the finished system is that sum of the element matrices. |
| `ProblemSystem.TieUnknowns` | modules/fem/src/problem.c:206-218 | The rows of a condition are those of its unknowns and of its own two multipliers in the numbering. Body: bc.c:1037-1056. |
| `ProblemSystem.TiesAreReady` | modules/fem/src/problem.c:206-218 | The rows of the multipliers are empty before the conditions are written, and no two conditions share one. |
| `Loads.LoadVector` | modules/fem/src/load.c:600-616 | Each coefficient receives the sum of the nodal loads on its unknown. |
| `Loads.AddedTogether` | modules/fem/src/load.c:600-616 | The vector of two lists one behind the other is the sum of both vectors. |
| `Loads.MultipliersUnloaded` | modules/fem/src/load.c:363-379 | Loads on existing nodes never reach a multiplier. |
| `Loads.MissingNodeLoadsFirst` | modules/fem/src/load.c:363-379 | A load on a missing node is not ignored but goes to the first unknown. |
| `Loads.MergedIsSumIff` | modules/fem/src/load.c:345-353 | The vector of fem_load_add is the sum of both vectors exactly when the first list adds nothing. |
| `Loads.FirstLoadDropped` | modules/fem/src/load.c:345-353 | A load on any unknown, merged with an empty list, is lost. |
| `PagedList.AppendsAtEnd` | modules/fem/src/load.c:345-353 | An element arrives at the end of the list, whatever the pages are like. Body: list.c:250-319. |
| `PagedList.CopyIsEmpty` | modules/fem/src/load.c:349-350 | A copied list looks empty; it equals the original exactly when that is empty. Body: list.c:402-422. |
| `Meshing.Store.NodeAdd` | modules/fem/src/meshing.c:214-242 | A new node goes to the end of the list and into the index; a known one is overwritten where it is, with the last internal number. |
| `Meshing.NodeChanges` | modules/fem/src/meshing.c:214-242 | Afterwards the number leads to the coordinates given; every other number leads to the same node as before; only an automatic number is used up. |
| `Meshing.Store.FemNodeAdd` | modules/fem/src/meshing.c:251-302 | A shorter vector is completed with zeros, a longer one refused without any change. |
| `Meshing.Store.MeshAdd` | modules/fem/src/meshing.c:499-546 | One mesh more with pointers to the nodes named, or, after taking back what was appended, nothing but a number used up. |
| `Meshing.MeshChanges` | modules/fem/src/meshing.c:499-546 | One mesh more, whose pointers lead to the nodes with the numbers named, and no mesh changed. |
| `Meshing.Store.LinkNodes` | modules/fem/src/meshing.c:526-538 | The pointers are all set if and only if all nodes exist. |
| `Meshing.NodeKeepsValid` | modules/fem/src/meshing.c:214-242 | Indexes and lists stay inverse to each other. |
| `Meshing.MeshKeepsValid` | modules/fem/src/meshing.c:499-546 | So do those of the meshes, whose nodes all belong to the meshing. |
| `Meshing.AlignedAfterIff` | modules/fem/src/meshing.c:235-236 | Internal numbers remain positions if and only if the node is new or is the last one. |
| `Meshing.RedefinedFirstNode` | modules/fem/src/meshing.c:235-236 | Two nodes, the first one given again: both have internal number 1. |
| `Meshing.RunKeepsAligned` | modules/fem/src/meshing.c:214-242 | Over every run without redefinition internal numbers are positions. |
| `Meshing.NumbersAreInverse` | modules/fem/src/meshing.c:325-371 | Then user and internal numbers are inverse, and missing ones are reported as such. |
| `Meshing.SharedNumberLosesUser` | modules/fem/src/meshing.c:325-371 | After a redefinition a node that shares its internal number cannot be found again. |
| `Meshing.AutomaticCollidesIff` | modules/fem/src/meshing.c:220-221 | An automatic number is already taken exactly when it was used explicitly before. |
| `Meshing.AutomaticOverwrites` | modules/fem/src/meshing.c:220-221 | After node 1 an automatic node overwrites it. |
| `MeshRuns.AutomaticNode` | modules/fem/src/meshing.c:220-221 | When all numbers in use are below the next automatic one, a node without number is one node more, behind the others, and they still are. |
| `MeshRuns.AutomaticMesh` | modules/fem/src/meshing.c:506-507 | So is a mesh whose nodes exist. |
| `MeshRuns.AutomaticNeverRedefines` | modules/fem/src/meshing.c:214-242 | A run of additions without numbers never redefines a node. |
| `MeshRuns.AutomaticRun` | modules/fem/src/meshing.c:214-242 | Over every such run no node is lost, the nodes have consecutive numbers in the order of the calls, with the coordinates given, and all numbers stay below the next automatic one. |
| `MeshRuns.AutomaticMeshes` | modules/fem/src/meshing.c:499-546 | The meshes have consecutive numbers too, and point to the nodes named when these exist. |
| `MeshRuns.NodesFromEmpty` | modules/fem/src/meshing.c:189-242 | In a meshing built that way from nothing the k-th node has number k+1. |
| `MeshRuns.MeshesFromEmpty` | modules/fem/src/meshing.c:499-546 | So has the k-th mesh. |
| `Meshing.Store.FemNodeUser` | modules/fem/src/meshing.c:362-371 | The first node in the list with the internal number, or 0. |
| `MeshMerge.MergeKeepsBoth` | modules/fem/src/meshing.c:1168-1223 | When no moved number is taken the merge holds both meshings, the second behind the first, each mesh connected as it was. |
| `MeshMerge.MergeKeepsNodesIff` | modules/fem/src/meshing.c:1168-1223 | The merge keeps all nodes if and only if no moved number of the second meshing is a number of the first. |
| `MeshMerge.MergeLosesNode` | modules/fem/src/meshing.c:1168-1223 | Node 2 alone merged with node 1 alone leaves one node. |
| `MeshMerge.BelowMaxNeverClashes` | modules/fem/src/meshing.c:1203-1205 | Numbers of nodes and of meshes below the next automatic ones never clash. |
| `MeshMerge.BelowMaxMergesAll` | modules/fem/src/meshing.c:1168-1223 | Merging meshings with such numbers loses nothing and connects every mesh as before. |
| `MeshRuns.AutomaticMergesAll` | modules/fem/src/meshing.c:1168-1223 | A meshing built without numbers takes any other one of its dimension behind it without loss. |
| `MeshMerge.MergeKeepsMeshesIff` | modules/fem/src/meshing.c:1205-1213 | The merge keeps all meshes if and only if no moved number of a mesh of the second meshing is one of the first. |
| `MeshMerge.MergeRestartsNumbers` | modules/fem/src/meshing.c:1168-1223 | A merge leaves the next automatic number at 1. |
| `MeshMerge.MeshesAppended` | modules/fem/src/meshing.c:1141-1160 | All meshes arrive, their nodes shifted by the number of nodes before them. |
| `MeshMerge.BufferHoldsIff` | modules/fem/src/meshing.c:1146-1150 | The buffer that doubles at most once per mesh holds all meshes if and only if none needs two doublings more than all before it. |
| `MeshMerge.SixteenFit` | modules/fem/src/meshing.c:1146-1150 | It holds all meshes of at most 16 nodes. |
| `MeshMerge.SeventeenOverrun` | modules/fem/src/meshing.c:1146-1150 | It does not when the first mesh has more. |
| `MeshMerge.SixteenFitBoth` | modules/fem/src/meshing.c:1168-1223 | One buffer holds both meshings when no mesh has more than 16 nodes. |
| `MeshMerge.FemMeshingAdd` | modules/fem/src/meshing.c:1168-1223 | The loops compute that merge; meshings of different dimension are refused, and the buffer is overrun exactly when it does not hold all meshes. |
| `MeshFile.Input.LoadHeader` | modules/fem/src/meshing.c:807-850 | The loop with its status variable is the scanner. |
| `MeshFile.ScanIsFirstMark` | modules/fem/src/meshing.c:807-850 | The scanner stops behind the first #! at the start of a line, whatever lies before it, and reports the end of the file when there is none. |
| `MeshLoad.MeshingLoad` | modules/fem/src/meshing.c:856-968 | The loader ends as the specification does on every text, malformed ones included: with what was read, refused, or with an indeterminate value. |
| `MeshSave.FemMeshingSave` | modules/fem/src/meshing.c:1064-1096 | The text written for a meshing. |
| `MeshSave.SavedLines` | modules/fem/src/meshing.c:1026-1056 | The lines of a node and of a mesh, character by character. |
| `MeshSave.LoadsNode` | modules/fem/src/meshing.c:1026-1037 | A node record is read back. |
| `MeshSave.LoadsMesh` | modules/fem/src/meshing.c:1045-1056 | A mesh record is read back, or makes the loader write behind its buffer. |
| `MeshSave.LoadsBackIff` | modules/fem/src/meshing.c:856-1096 | Every valid meshing of dimension at least 1 loads back from its file if and only if the buffer of the loader holds its meshes. |
| `MeshSave.RestoredIs` | modules/fem/src/meshing.c:856-1096 | What comes back has the same nodes in order, numbers, coordinates and meshes; it is the same if and only if internal numbers were positions. |
| `MeshSave.SaveAndLoad` | modules/fem/src/meshing.c:974-1096 | Save followed by load, as methods, with the same exact condition. |
| `MeshSave.LoadedNumbersCollideIff` | modules/fem/src/meshing.c:639-660 | After a load the first automatic number is taken exactly when node 1 exists. |
| `GroupFile.GroupSave` | modules/fem/src/group.c:406-424 | The text written for a group. |
| `GroupFile.SavedLines` | modules/fem/src/group.c:386-424 | The texts of a group of nodes and of a group of meshes, character by character. |
| `GroupFile.GroupLoad` | modules/fem/src/group.c:288-351 | The loops of the loader, on every text. |
| `GroupFile.GroupRoundTrip` | modules/fem/src/group.c:288-424 | A group loads back from its file exactly when it is not empty. |
| `Md5Words.Md5Lawful` | modules/net/src/identity.c:246-253 | The four functions used equal those of RFC 1321 section 3.4, and addition modulo 2^32 may be regrouped. |
| `Md5Block.Transform` | modules/net/src/identity.c:244-342 | The 64 unrolled steps on running variables compute the operations of RFC 1321 section 3.4, its constants, shifts and message order included. |
| `Md5Context.ByteReverse` | modules/net/src/identity.c:99-117 | On either host the words seen afterwards are those of the standard. |
| `Md5Context.NativeIsStandard` | modules/net/src/identity.c:99-117 | A block after byte_reverse is the sequence of words of RFC 1321 section 3.4. |
| `Md5Stream.CountAdds` | modules/net/src/identity.c:146-151 | The two halves of the bit count with their carry are 8 times the length modulo 2^64. |
| `Md5Context.Context.Init` | modules/net/src/identity.c:124-133 | A context just started has taken in nothing. |
| `Md5Context.Context.Count` | modules/net/src/identity.c:146-153 | The count after more bytes, and the bytes waiting before. |
| `Md5Context.Context.Update` | modules/net/src/identity.c:140-186 | The context depends on the concatenated input only: registers, count and waiting bytes. |
| `Md5Context.Context.Pad` | modules/net/src/identity.c:193-225 | Both ways to pad give the padding of RFC 1321 section 3.1. |
| `Md5Context.Context.Final` | modules/net/src/identity.c:193-235 | The digest of the message taken in; the context is cleared. |
| `Md5Stream.PaddedInBlocks` | modules/net/src/identity.c:198-225 | The padded message is a whole number of blocks: one more than the full ones, or two when the length does not fit. |
| `Md5Stream.PaddedInTwo` | modules/net/src/identity.c:208-219 | The padding over two blocks is the padding of the standard. |
| `Md5Digest.DigestOfPieces` | modules/net/src/identity.c:124-235 | For every sequence of pieces and either byte order, the digest is that of the concatenation. |
| `Md5Digest.Rewrite` | modules/net/src/identity.c:349-365 | The hexadecimal form in place: right for bytes 1 to 15 and the first digit of byte 0; the second digit is computed from the first. |
| `Md5Digest.SecondDigitIff` | modules/net/src/identity.c:349-365 | That digit is right exactly for the bytes whose low half is the low half of the first digit. |
| `MemoryCache.Cache.Get` | kernel/libhaplo/memory.c:604-614 | The block returned is with no other client. |
| `MemoryCache.Cache.Release` | kernel/libhaplo/memory.c:644-652 | A block goes back to the cache, or to the allocator when the cache is full. |
| `MemoryCache.RunBalances` | kernel/libhaplo/memory.c:604-652 | Over every run allocations minus frees equal outstanding plus cached blocks, all different. |
| `MemoryCache.ReleaseThenGet` | kernel/libhaplo/memory.c:604-652 | A block released is the next one handed out, unless the cache is full. |
| `MemoryCache.Cache.FreeAll` | kernel/libhaplo/memory.c:583-594 | Exactly the cached blocks are freed; what stays allocated is what clients hold. |
| `MemoryLedger.RunKeepsInv` | kernel/libhaplo/memory.c:188-453 | Over every run live addresses differ, memory_size is the sum of live sizes, and mallocs plus null reallocations minus frees is the number of live blocks. |
| `MemoryLedger.StepKeepsInv` | kernel/libhaplo/memory.c:188-453 | Every call that does not end the process keeps the books. |
| `MemoryLedger.EndsIff` | kernel/libhaplo/memory.c:188-453 | A call ends the process exactly when it asks for nothing, gets nothing where it must, or names a block that is not live. |
| `MemoryLedger.StepReplays` | kernel/libhaplo/memory.c:188-453 | Every other call changes the set of live blocks as it says: one block new after an allocation, the block of that address gone after a free, and replaced after a reallocation; all others stay, with their sizes. |
| `MemoryLedger.RunReplays` | kernel/libhaplo/memory.c:188-453 | Over every run the live blocks are those of the calls. |
| `MemoryLedger.CountersFollow` | kernel/libhaplo/memory.c:188-453 | Over every run the counters are the numbers of allocations that were given a block, of frees and of reallocations. |
| `MemoryLedger.MaxAfterIff` | kernel/libhaplo/memory.c:431-433 | memory_max still bounds memory_size after a call, and is the largest size so far, if and only if the call is not a reallocation whose new size, put for the old one, exceeds it. |
| `MemoryLedger.PeakKeptIff` | kernel/libhaplo/memory.c:431-433 | Over every run memory_max is at each moment the peak of memory_size if and only if no reallocation goes beyond the maximum of its moment. |
| `MemoryLedger.MaxBoundsSize` | kernel/libhaplo/memory.c:188-453 | It does over every run without growing reallocations. |
| `MemoryLedger.GrowthIsNotRecorded` | kernel/libhaplo/memory.c:431-433 | A run after which memory_max is below memory_size. |
| `MemoryLedger.Ledger.FreeDebug` | kernel/libhaplo/memory.c:312-351 | The block with that address is gone and every other one is still there, or the process ends exactly for an address that is not live. |
| `MemoryLedger.Ledger.ReallocDebug` | kernel/libhaplo/memory.c:384-453 | The block with that address is replaced by the new one and every other one is still there; of nothing, the new one is added; the process ends exactly for an address that is not live or when nothing is given. |

## Left out

- Rounding of floating-point numbers: what factors, solutions, eigen vectors and conditions mean is proved for real numbers; the equality of threaded and sequential factors holds for every arithmetic.
- A first diagonal coefficient of zero: the program divides by it and goes on with infinities, which real numbers do not have. For the same reason a right-hand side of zeros, for which the threshold is zero, is solved only when no pivot is zero.
- Solver.Matrix.FactorizeThreaded: the profile `diag` is a constant sequence of the object and not an array; `problem_matrix`, which writes it, is modelled on an array before the object exists.
- Eigen.EigenSolve: the random start and the number of turns are parameters, and nothing is said about convergence; when some computed a is not positive no vectors are returned, where the program goes on with the root of a number that is not positive.
- Eigen.FemEigenNew: the two matrices are different objects.
- PoolInvariant.KeepsInv: one client, at least one slot and one thread; failure of pthread_create, and two clients at once, are not modelled. Finitely many spurious wake-ups may occur, and fairness between threads is not used.
- NumberingCreate.Create: the order qsort leaves the conditions in is a parameter, sorted by bc_compare; parts of conditions come with internal node numbers. A condition without parts is never met; the program compares parts that it does not have.
- NumberingLookup.Local: numbers begin from 1 as the comment says.
- ProblemSystem.ProblemGsm: the matrices of elements and their weights at integration points are parameters, since they come from callbacks of element modules.
- Loads.LoadVector: nodal loads only; distributed loads come from callbacks of elements.
- PagedList.CopyIsEmpty: the bytes copied behind the count are not kept, because nothing visits them.
- Meshing.Store.NodeAdd: numbers do not wrap around; the memory of pages and the hash table are lists and maps; fem_meshing_copy, which leaves max_n unset, is not modelled.
- MeshLoad.MeshingLoad: reading a single character of a number counts as reading the number, and a number with a fraction is not read as a whole number; overlong numbers are left out.
- MeshSave.FemMeshingSave: coordinates print losslessly; the format `%e` keeps seven digits.
- MeshSave.LoadsBackIff: dimension at least 1, because the loader ignores meshes of dimension 0; a mesh has fewer than 65536 nodes, because the program counts them in 16 bits.
- Md5Context.Context.Update: words of 32 bits; on hosts whose `unsigned long` is longer identity.c behaves differently. Pieces are shorter than 2^32 bytes.
- MemoryLedger.StepKeepsInv: addresses are chosen by the environment, never in use; flags, file names and lines of blocks are left out.
- Files that are not opened, messages, timers, help texts, sockets, terminals, module loading and the interpreter.
- Renumbering, determinants, integration rules, geometry, post-processing, materials, properties and element types.
- Element callbacks, the UNV reader and the grammar.
