# A verified model of the analysis platform's hard core

The project models the parts of the platform whose correctness rests on more than one function: the
influence metrics, depth-bounded graph search, role inheritance, the in-memory rate limiter, session
families, task and execution scheduling, the circuit breaker, versioned graph snapshots, relationship
discovery and the entity merge pipeline. `dafny verify dfyconfig.toml` checks all of it.

Code that changes state is written as methods over classes and local tables, each proved against a
specification function or predicate; what the platform promises is then proved about those
specifications, for every graph, every call history and every interleaving of atomic steps. The rows named
`...Meaning`, `...Exact` and the like say what a specification function stands for in the system's own fields, rows,
links and hops, without the functions it is computed by.

| file | what it holds |
|---|---|
| `Options`, `Reals`, `Sums`, `Ordering` | absent values, signs of products and quotients, finite sums with exchange of summation, picking and sorting |
| `Graphs`, `Distances` | walks counted by last edge, first edge and middle vertex; reachability, distance, and the breadth-first invariant the three searches share |
| `Closeness`, `Brandes`, `Betweenness`, `PageRank`, `Influence` | the five metrics and the composite score: `Brandes` is the declarative theory, `Betweenness` the algorithm |
| `GraphSearch` | `neighbors`: filtering, adjacency lists, depth-bounded search, traversed edges, paging |
| `Inheritance`, `Rbac` | relations under replacement of one role's rows; the RBAC service over its tables |
| `RateLimit` | token bucket and sliding-window log, as functions of a call history and as the backend object |
| `Sessions` | login, refresh, logout and authenticate as a state machine over the session table |
| `Scheduling` | Decision Center tasks and executions over one shared database, and the worker of `run_execution` with its cached copy |
| `CircuitBreaker` | the locked sections of `execute` as separate steps |
| `Snapshots`, `Discovery` | building and deriving snapshots; candidates, evidence and decisions on top of them |
| `EntityMerge`, `EntityPipeline` | deduplication and alias resolution as one fold over entity objects; the composed map and the rewritten relations |

Conventions. Floats are exact reals and the final `round(...)` calls are dropped. Identifiers, names and
payloads are opaque types with equality. The iteration order of a Python `set` is left arbitrary, so every
result about a loop over one holds for each order. Case folding, name normalisation, acronyms and password
checks are function parameters. Passwords, signatures and hashes are ideal, and drawn identifiers are fresh.
Each service call is one atomic step on the stored rows, with two exceptions: the circuit breaker, whose
operation runs between two locked steps, and `run_execution`, whose session keeps its own copy of the execution
from one attempt to the next while other calls commit in between. Some loops of the source are split into
methods of their own (`VisitTargets`, `ScanEdge`, `SweepOne`, `Expand`, `TakeNext`, `AddLink`, `StartWork`, `Save`,
`File`, `Settle`, `Retry`, `Turn`) so that one invariant step is one contract.

## What the proofs found

- A relation that repeats an already stored triple is dropped without a log entry. Every relation is kept or
  logged if and only if no two of them resolve to the same triple (`EntityPipeline.AccountedFor`, with the
  repeat of a relation between any two entities of different types in `EntityPipeline.RepeatIsSilent`).
- `min(100.0, score)` never binds in exact arithmetic (`Influence.ScoreInRange`).
- A cancelled execution can become RUNNING, COMPLETED or FAILED. Sessions are opened with `expire_on_commit=False`
  (backend/app/database.py:25), so `run_execution` tests each transition on the state it last wrote and then writes
  over whatever is stored. A step of it moves the stored state forward if and only if nobody cancelled the execution
  since (`Scheduling.Worker.Attempt`, `Scheduling.OverwriteForward`); `Scheduling.CancelledRunCompletes` is a run in
  which CANCELLED becomes COMPLETED. Over runs with any number of workers no other move goes back
  (`Scheduling.RunForward`), and some run leads out of CANCELLED if and only if a worker still holds the execution
  on its copy, as ASSIGNED or RUNNING (`Scheduling.CancelledLeft`). If the task or the agent has another active
  execution by then, the partial unique indexes refuse the write, exactly when it would double one
  (`Scheduling.ActiveRow`).
- `neighbors` looks the root up by external or internal id and seeds the search with the raw argument. When the
  argument is the root's external id, the items and traversed edges returned are those around the root. When it is no
  node's external id, they are so if and only if the depth is zero or the root has no adjacent edge; when it is
  another node's external id and one of the two nodes passes the node filters, if and only if the depth is zero or
  neither has an adjacent edge (`GraphSearch.AnswersForRoot`). `GraphSearch.FilteredTwinsAgree` shows why the filters
  matter there: two joined nodes, both filtered out, get the same answer. `GraphSearch.RootMissed` is a two-node graph
  in which the root has a neighbour and the answer is empty, whether or not the argument is also the other node's
  external id.
- `create_role` commits the role, and `update_role` the name and description, before the parents are
  validated; rejected parents leave those changes behind (`Rbac.Service.CreateRole`, `Rbac.Service.UpdateRole`).
- A repeated parent passes validation and then breaks the primary key of the inheritance table; the rows are
  rolled back (`Rbac.Service.SetParents`).
- `build` keeps the first relationship of greatest confidence of a typed pair, `derive` the first it is given
  (`Snapshots.EdgesByName`, `Snapshots.AdditionsFirst`).
- An approval derives from the candidate's own snapshot. Two approvals of one snapshot therefore end in sibling
  snapshots, neither with the other's edge, and a run on a sibling proposes the approved pair again exactly when
  evidence is offered (`Discovery.SiblingsPropose`, `Discovery.ReproposedExactly`).
- A failure threshold below one acts like one (`CircuitBreakers.RunMeaning`), and while the breaker is half open
  every caller is admitted (`CircuitBreakers.CircuitBreaker.Begin`).
- A finished execution writes REVIEW and then DONE over whatever status its task has by then; DONE is still
  only ever entered out of REVIEW (`Scheduling.Worker.Success`).

## Model

| member | source | states |
|---|---|---|
| Graphs.CountThroughLayer | influence/engine.py:153-162 | the walks of length j + m between two vertices are counted by the vertex they visit at step j, which is what splitting shortest paths at a vertex rests on |
| Distances.ScanInv | influence/engine.py:156-162 | relaxing one edge keeps the breadth-first invariant: the queue is ordered by distance, spans at most two levels, and every scanned vertex has its successors recorded |
| Distances.Exact | influence/engine.py:153-162 | at every moment of a search each recorded depth already is the true shortest-path length |
| Distances.Complete | influence/engine.py:181-186 | when the queue is empty, exactly the reachable vertices are recorded |
| Closeness.BreadthFirst | influence/engine.py:179-186 | the closeness search terminates with exactly the reachable vertices, each at its shortest-path distance |
| Closeness.SourceCloseness | influence/engine.py:187-193 | the value of one source is the reached share times the inverse mean distance, zero when nothing is reached |
| Closeness.Closeness | influence/engine.py:175-194 | one such value for every node |
| Closeness.ClosenessInUnit | influence/engine.py:189-193 | closeness lies in [0, 1] for every graph, because the distances of what is reached sum to at least its number |
| Closeness.ClosenessOne | influence/engine.py:187-193 | closeness is one exactly for a node with a link to every other node |
| Closeness.ClosenessZero | influence/engine.py:187-193 | closeness is zero exactly for a node that reaches no other |
| Closeness.ClosenessMeaning | influence/engine.py:187-193 | times the total distance and the number of other nodes, closeness is the square of the number of nodes reached |
| Brandes.ThroughCount | influence/engine.py:161-167 | the number of shortest s-t paths through v is the product of the counts on its two sides when v lies between them, else zero |
| Brandes.DependencyStep | influence/engine.py:166-167 | Brandes' recurrence, derived from the definition: the dependency of s on v is the sum over shortest-path successors w of paths(v)/paths(w) times one plus the dependency on w |
| Brandes.BetweennessByDependency | influence/engine.py:168-169 | the declared betweenness, a sum over ordered pairs of the fraction of shortest paths through v, equals the sum over sources other than v of the dependencies |
| Brandes.DependencyBound | influence/engine.py:163-171 | no source depends on a vertex by more than n - 2 |
| Brandes.LayerConservation | influence/engine.py:163-167 | the dependencies of the vertices at distance d from the source add up to the number of reachable vertices farther than d |
| Brandes.BetweennessInUnit | influence/engine.py:170-172 | normalised betweenness lies in [0, 1] for every graph |
| Brandes.BetweennessOne | influence/engine.py:143-172 | normalised betweenness is one exactly when there are three nodes or more and, for every two others, the second can be reached from the first and every shortest walk passes the node |
| Brandes.BetweennessZero | influence/engine.py:143-172 | normalised betweenness is zero exactly when no shortest walk between two other nodes passes the node |
| Betweenness.SigmaStep | influence/engine.py:160-162 | the number of shortest paths to a vertex is the sum of those to its shortest-path predecessors |
| Betweenness.PathsFinal | influence/engine.py:153-162 | a vertex's path count is final, and exact, when it leaves the queue |
| Betweenness.PredecessorsExact | influence/engine.py:160-162 | predecessor lists hold exactly the shortest-path predecessors, each once |
| Betweenness.ScanEdge | influence/engine.py:156-162 | one edge relaxation keeps distances, predecessors and path counts in step with the search |
| Betweenness.CountPaths | influence/engine.py:146-162 | the forward phase returns the discovery order by distance, the exact predecessors, the exact path counts and the exact distances |
| Betweenness.HandBack | influence/engine.py:166-167 | a popped vertex credits each predecessor once with its part and nobody else |
| Betweenness.DependencyFinal | influence/engine.py:164-167 | when a vertex is popped all its successors have been, so its accumulated dependency equals the declared one |
| Betweenness.Sweep | influence/engine.py:163-169 | the backward phase computes every dependency and adds it to the score of every vertex but the source |
| Betweenness.Betweenness | influence/engine.py:143-172 | for every graph the algorithm returns the declared normalised betweenness of every node |
| PageRank.SpreadConserves | influence/engine.py:131-135 | redistribution conserves the total rank, sinks included |
| PageRank.UpdateMass | influence/engine.py:135-135 | an update turns mass m into (1 - DAMPING) + DAMPING m, so mass one stays one |
| PageRank.IterateDistribution | influence/engine.py:129-140 | every iterate sums to exactly one and gives every node at least (1 - DAMPING) / n |
| PageRank.ChanceRow | influence/engine.py:131-135 | the chances with which a random surfer leaves a node, along a link or else anywhere, sum to one |
| PageRank.UpdateMoves | influence/engine.py:131-135 | the next rank of a node is the sum over all nodes of their rank times the chance that the surfer moves from them to it |
| PageRank.IterateSurfer | influence/engine.py:129-139 | the k-th iterate is the distribution of a surfer who starts anywhere and moves k times, with DAMPING along a link of the node it is at, or anywhere when there is none |
| PageRank.LinkPasses | influence/engine.py:132-135 | along a link a node passes an equal part of its damped rank to each node it links to |
| PageRank.SurferMoves | influence/engine.py:136-138 | the iteration goes on exactly while the surfer's chances change by the tolerance in all |
| PageRank.Contraction | influence/engine.py:131-136 | one update brings any two rankings closer in L1 by at least the factor DAMPING |
| PageRank.SuccessiveGap | influence/engine.py:130-139 | the distance between successive iterates shrinks geometrically |
| PageRank.Converges | influence/engine.py:130-139 | the distance to any stationary ranking shrinks geometrically from the uniform start |
| PageRank.StationaryUnique | influence/engine.py:125-140 | at most one stationary ranking exists |
| PageRank.StopError | influence/engine.py:136-138 | after the early stop the result is within a stated distance of any stationary ranking |
| PageRank.CauchyBound | influence/engine.py:130-139 | for every graph, with no stationary ranking assumed, all later iterates stay within 1 / (1 - DAMPING) times one step |
| PageRank.StopStays | influence/engine.py:136-138 | for every graph, after the early stop no later iterate would be farther than DAMPING / (1 - DAMPING) times the tolerance |
| PageRank.SinkTotal | influence/engine.py:131-131 | the loop over all nodes computes the mass of those without successors |
| PageRank.Inbound | influence/engine.py:134-134 | summing over the predecessors of a node, in any order, gives its inflow, because incoming is the transpose of outgoing |
| PageRank.Step | influence/engine.py:131-135 | one pass computes the next rank of every node: from a distribution, all ranks times their chance to move to the node |
| PageRank.Change | influence/engine.py:136-136 | the change is the L1 distance of the two rankings |
| PageRank.Run | influence/engine.py:125-140 | the result is the surfer's distribution after the first step that moved by less than the tolerance, or after the hundredth; no nodes give the empty table |
| Influence.Tables | influence/engine.py:78-90 | self-loops and unknown ends are skipped, repeated links are merged, weights are clamped; the two adjacency tables are transposes |
| Influence.WeightHandshake | influence/engine.py:83-90 | each usable link adds its weight, cut to [0, 1], to both of its ends and to nothing else: the weights at the nodes sum to twice the weight of the links |
| Influence.DegreeInUnit | influence/engine.py:93-96 | degree lies in [0, 1] for every link list |
| Influence.DegreeMeaning | influence/engine.py:92-96 | degree times the number of other nodes is the number of nodes linked to or from it, so it is one exactly when all are |
| Influence.WeightedDegreeInUnit | influence/engine.py:97-100 | weighted degree lies in [0, 1] for every link list |
| Influence.WeightedDegreeMeaning | influence/engine.py:97-100 | weighted degree measures the weights at a node against twice the other nodes, and is one exactly when they reach that |
| Influence.RankBounds | influence/engine.py:104-107 | ranks are positive and at most one, so normalising by the largest lands in [0, 1] |
| Influence.ScoreInRange | influence/engine.py:108-114 | all five components lie in [0, 1], so the composite lies in [0, 100] without the clip |
| Influence.Metrics | influence/engine.py:76-123 | exactly one profile a node, every column equal to its declared meaning and within its bounds; the score is 20, 20, 25, 15 and 20 times the five, the rank normalised by the true maximum |
| GraphSearch.FilterEdges | graph_search/engine.py:151-163 | membership: exactly the edges at or above the confidence whose folded type is asked for |
| GraphSearch.FilterEdgesInOrder | graph_search/engine.py:158-163 | filtering a concatenation is concatenating the filtered parts, down to single edges: order and repetitions are kept |
| GraphSearch.BuildAdjacency | graph_search/engine.py:87-92 | the lists hold exactly the arcs of the direction; a lookup error arises exactly when some needed end is not a node |
| GraphSearch.FindNode | graph_search/engine.py:136-141 | the first node in list order with that external or internal id, an error exactly when none has it |
| GraphSearch.Expand | graph_search/engine.py:101-109 | expanding a node marks exactly its adjacent edges to known nodes and enqueues exactly the new ones |
| GraphSearch.TraverseDone | graph_search/engine.py:96-109 | a drained queue leaves exactly the nodes within the depth, each at its shortest distance |
| GraphSearch.Traverse | graph_search/engine.py:93-109 | visited is exactly the nodes within the depth; traversed is exactly the edges adjacent, in the direction, to a node nearer than the depth |
| GraphSearch.Neighbors | graph_search/engine.py:71-134 | the whole call, with its two errors: the root looked up, visited, traversed and the nodes found after the node filters, all around the argument |
| GraphSearch.ItemsMeaning | graph_search/engine.py:71-117 | in terms of the snapshot: the items are exactly the nodes other than the argument that pass the node filters and that hops along suitable edges lead to, each with the least number of hops, at most the depth |
| GraphSearch.EdgesMeaning | graph_search/engine.py:93-109 | in the same terms: the traversed edges are exactly the suitable ones that lead onward from a node fewer hops away than the depth |
| GraphSearch.InternalIdFindsNothing | graph_search/engine.py:93-117 | an argument that is no node's external id has no neighbours |
| GraphSearch.AnswerUnique | graph_search/engine.py:84-134 | two searches around one seed return the same items and the same traversed edges |
| GraphSearch.ShownTells | graph_search/engine.py:93-117 | searches around two different seeds return different answers as soon as one of the seeds passes the node filters and has an adjacent edge |
| GraphSearch.AnswersForRoot | graph_search/engine.py:84-134 | when the items and edges returned are those around the root that was looked up: always for its external id; otherwise, if the argument is no node's external id or one of the two nodes passes the node filters, exactly when the depth is zero or no edge is adjacent to root or argument |
| GraphSearch.FilteredTwinsAgree | graph_search/engine.py:93-117 | why the node filters matter there: two joined nodes, both filtered out, get the same answer |
| GraphSearch.RootMissed | graph_search/engine.py:84-117 | a concrete graph: the root found by its internal id has a neighbour one hop away and nothing is found, also when the argument is that neighbour's external id |
| GraphSearch.PagesCover | graph_search/engine.py:165-168 | the pages read one after the other give the list, nothing skipped, repeated or reordered |
| Inheritance.CutAtRole | rbac/service.py:116-131 | a chain that ends in a role can be cut at its first visit there, where it uses only old rows |
| Inheritance.ReplaceKeepsHeirs | rbac/repository.py:69-76 | replacing a role's parents does not change who inherits the role |
| Inheritance.CycleAvoids | rbac/service.py:125-131 | a cycle after the replacement either existed before or passes through the role |
| Inheritance.ReplaceOwnCycle | rbac/service.py:128-131 | the role is on a cycle afterwards if and only if one of its new parents inherited it before |
| Inheritance.ReplaceAcyclic | rbac/service.py:125-131 | in an acyclic hierarchy, the search of the old graph decides exactly whether the new graph is acyclic |
| Inheritance.WorklistNext | rbac/service.py:118-122 | one round of the worklist keeps: what is seen is reached, what is reached is seen or still pending |
| Rbac.AllowedMonotone | rbac/service.py:75-108 | adding grants, assignments, inheritance rows or permissions never turns an allow into a deny |
| Rbac.AllowedMeaning | rbac/service.py:75-108 | allowed means, in the rows: from a role of the user inheritance rows lead in some number of steps to a role with a permission whose resource, action and scope are each the one asked for or the wildcard |
| Rbac.Service.Effective | rbac/service.py:116-123 | terminates on every finite relation, cyclic ones included, with exactly the reflexive-transitive closure of the roots |
| Rbac.Service.ValidateParents | rbac/service.py:125-131 | the verdict and the first error met, in order: self-inheritance, unknown parent, cycle |
| Rbac.Service.SetParents | rbac/repository.py:69-76 | the role's rows become exactly the given parents, or stay as they were when a parent repeats |
| Rbac.Service.Reparent | rbac/service.py:45-47 | accepted if and only if the parents are distinct, exist and leave the hierarchy acyclic, else the first error met; acyclicity is kept |
| Rbac.Service.CreateRole | rbac/service.py:25-33 | code conflict, rejected parents after the row is stored with the first error met, and success, each with its exact new state; acyclicity is kept |
| Rbac.Service.UpdateRole | rbac/service.py:38-48 | outcome, first error of rejected parents and state of an update, partial ones included; system hierarchies are immutable; acyclicity is kept |
| Rbac.Service.DeleteRole | rbac/service.py:50-54 | system roles stay; otherwise the role and every row that mentions it go; acyclicity is kept |
| Rbac.Service.Grant | rbac/service.py:75-80 | adds one grant and takes nothing away from anyone |
| Rbac.Service.Revoke | rbac/service.py:82-85 | removes exactly that grant |
| Rbac.Service.Assign | rbac/service.py:87-90 | adds one assignment and takes nothing away from anyone |
| Rbac.Service.Unassign | rbac/service.py:92-94 | removes exactly that assignment |
| Rbac.Service.IsAllowed | rbac/service.py:96-108 | true if and only if some role reachable from the user's roles has a matching or wildcard permission |
| Rbac.Service.Check | rbac/service.py:110-114 | the decision together with the sorted closure of the user's roles |
| RateLimit.SpentFrom | rate_limit/backend.py:26-32 | from any level, later admissions are paid from its tokens and what accrues |
| RateLimit.TokenBound | rate_limit/backend.py:21-32 | under non-decreasing times, admissions in [a, b] number at most the capacity and what accrues from a to b |
| RateLimit.TokenLimit | rate_limit/backend.py:21-32 | the same in the policy's fields: at most limit + burst + limit (b - a) / window |
| RateLimit.BurstExact | rate_limit/backend.py:21-32 | of n calls at one instant a bucket admits exactly as many as it holds whole tokens: those left and limit a window since, up to limit + burst |
| RateLimit.BurstLimits | rate_limit/backend.py:21-32 | a fresh bucket admits exactly limit + burst calls at once, and an emptied one exactly limit a window later |
| RateLimit.RemainingExact | rate_limit/backend.py:29-31 | remaining is exactly the number of further calls admitted at the same instant |
| RateLimit.TokenRetryExact | rate_limit/backend.py:27-32 | after a denial a lone later call is admitted if and only if it comes at or after now + retry_after; retry_after times limit is the missing part of a token times the window |
| RateLimit.LogRunInv | rate_limit/backend.py:38-42 | in every run the pruned deque is exactly the part of the whole history the last prune kept, and admissions are spaced |
| RateLimit.AdmittedByHistory | rate_limit/backend.py:38-44 | a call is admitted if and only if fewer than limit + burst admissions of the whole history lie in (now - window, now], and remaining is what the window has room for after it |
| RateLimit.WindowNeverExceeded | rate_limit/backend.py:34-44 | no half-open window of the policy's length ever holds more than limit + burst admissions |
| RateLimit.WindowRetryExact | rate_limit/backend.py:44-44 | after a denial a lone later call is admitted if and only if it comes at or after now + retry_after |
| RateLimit.MemoryBackend.TokenBucket | rate_limit/backend.py:21-32 | the key's bucket takes one step of the specification that the rows above are about; other keys and the windows are untouched |
| RateLimit.MemoryBackend.SlidingWindow | rate_limit/backend.py:34-44 | the key's deque takes one step of the specification; other keys are untouched |
| Sessions.OneLiveSession | authentication/service.py:75-77 | two unrevoked sessions of one family are the same session |
| Sessions.RotateInv | authentication/service.py:75-78 | a rotation extends the family's replacement chain by the new session |
| Sessions.RunInv | authentication/service.py:48-102 | in every run with fresh ids each family is a simple chain of replacements with at most one live session, its last |
| Sessions.RunKeeps | authentication/repository.py:47-61 | rows are never removed, keep family and token, and never become live again |
| Sessions.RunDead | authentication/repository.py:55-61 | a family without live sessions stays so in every run |
| Sessions.RotatedTokenIsSpent | authentication/service.py:62-66 | a token that was rotated is reported as reuse whenever it is shown again before it expires |
| Sessions.ReplayKillsFamily | authentication/service.py:64-66 | once reuse is detected, no later state of any run accepts a session of that family, in refresh or in authenticate |
| Sessions.AcceptedIsLive | authentication/service.py:88-102 | what authenticate accepts is the one live, unexpired session of its family, of an active user at the same token version |
| Sessions.LoginOpens | authentication/service.py:48-130 | the access token of a login authenticates its user exactly until it or the session expires, and its refresh token can be rotated exactly until it expires |
| Sessions.RotationHandsOn | authentication/service.py:58-78 | the tokens of a rotation work as those of a login do, and the session it replaced is accepted by nothing |
| Sessions.LoggedOut | authentication/service.py:80-86 | after a logout the session is accepted by nothing, in any later run |
| Sessions.AuthenticationService.RevokeAll | authentication/repository.py:55-61 | exactly the unrevoked sessions of the family get the date |
| Sessions.AuthenticationService.Login | authentication/service.py:48-56 | succeeds if and only if the folded email names an active user whose stored hash verifies the password; stores exactly one live session of that user, at its version, in the new family; any failure is InvalidCredentials and changes nothing |
| Sessions.AuthenticationService.Refresh | authentication/service.py:58-78 | succeeds if and only if the token is an unexpired refresh token, stored by a session neither revoked nor expired, of an active user at its version; then the session is replaced by a new one; a spent token revokes exactly the live sessions of its family |
| Sessions.AuthenticationService.Logout | authentication/service.py:80-86 | the session of the token shown is revoked if it was live; a token that does not verify is an error and changes nothing |
| Sessions.AuthenticationService.Authenticate | authentication/service.py:88-102 | accepts if and only if the token is an unexpired access token of an active user at the user's version, for a session neither revoked nor expired; changes nothing |
| Scheduling.ForwardTransitive | execution_engine/state_machine.py:8-28 | paths of allowed transitions compose |
| Scheduling.ForwardAntisymmetric | execution_engine/state_machine.py:8-28 | no path of allowed transitions leads back: the table has no cycle |
| Scheduling.FinalStates | execution_engine/state_machine.py:25-27 | COMPLETED, FAILED and CANCELLED, and no other state, are left by no path; the others are the active ones |
| Scheduling.TransitionMeaning | execution_engine/state_machine.py:8-28 | an execution goes on to the next of five states, or ends FAILED or CANCELLED before it is COMPLETED |
| Scheduling.ForwardMeaning | execution_engine/state_machine.py:8-28 | paths lead exactly to the state itself, to the later ones of the five, and to FAILED and CANCELLED before the end |
| Scheduling.WriteTask | decision_center/service.py:64-82 | a row that puts nobody busy to work keeps the rule that no agent owns two tasks in progress |
| Scheduling.AddExecution | execution_engine/service.py:125-153 | an execution for an agent without one keeps the rule that no agent has two active executions |
| Scheduling.ActiveRow | execution_engine/models.py:34-51 | an active row keeps the rule, one active execution an agent and a task, if and only if it collides with no other active execution |
| Scheduling.OverwriteForward | execution_engine/service.py:76-80 | a transition tested on a copy moves the stored state forward if and only if the stored state still is the copy |
| Scheduling.OverwriteProgress | execution_engine/service.py:76-80 | the same for the whole table: every execution moves forward if and only if the one written was not cancelled behind the copy |
| Scheduling.CancelOverwritten | execution_engine/service.py:288-307 | a concrete row: CANCELLED, still running on the worker's copy, is completed, and that is not a forward move |
| Scheduling.AttemptProgress | execution_engine/service.py:254-308 | what an attempt leaves in the table is a forward move for every execution if and only if it does not end one that was cancelled meanwhile |
| Scheduling.Database.EnsureAgentAvailable | decision_center/service.py:64-82 | passes if and only if the agent exists and owns no other task in progress |
| Scheduling.Database.CreateTask | decision_center/service.py:105-125 | exact acceptance condition and new state; the database invariant is kept |
| Scheduling.Database.UpdateTask | decision_center/service.py:128-165 | DONE is refused, IN_PROGRESS needs a free owner, explicit nulls violate the row; exact acceptance condition and new row |
| Scheduling.Database.AssignTask | decision_center/service.py:168-187 | a task in progress goes only to an agent free of other work; exact acceptance condition and new row |
| Scheduling.Database.CompleteTask | decision_center/service.py:190-206 | accepted exactly out of REVIEW |
| Scheduling.Database.SelectReadyTask | execution_engine/service.py:98-111 | the READY task that comes first by priority, age and id, none exactly when there is none |
| Scheduling.FirstReadyMeaning | execution_engine/service.py:98-111 | no READY task has a higher priority than the one taken, none as high is older, none as high and as old has a smaller id |
| Scheduling.Database.SelectAgent | execution_engine/service.py:125-153 | the suitable free agent with the smallest id, none exactly when there is none |
| Scheduling.FirstFreeMeaning | execution_engine/service.py:125-153 | free means enabled, of a supported type, with exactly the specialisation asked for, no task in progress and no unfinished execution; the one taken has the smallest id |
| Scheduling.Database.ScheduleNext | execution_engine/service.py:156-190 | the first READY task goes to the first free agent with a new ASSIGNED execution; each error has its exact cause and changes nothing |
| Scheduling.Database.ScheduleTask | execution_engine/service.py:193-228 | the same for a chosen task, which must be READY |
| Scheduling.Database.Store | execution_engine/models.py:34-51 | an UPDATE of an execution row ignores the stored state and is refused exactly when the row is active and its task or agent is taken |
| Scheduling.Database.CancelExecution | execution_engine/service.py:352-375 | exactly the active executions can be cancelled; the task is READY and ownerless again |
| Scheduling.Worker.Begin | execution_engine/service.py:250-252 | ASSIGNED to RUNNING on the copy: exact outcome and stored row, and progress if and only if the row was not cancelled |
| Scheduling.Worker.Failure | execution_engine/service.py:259-286 | a failed attempt is recorded; the last one ends the execution FAILED and its task BLOCKED |
| Scheduling.Worker.Success | execution_engine/service.py:288-308 | review and completion in one transaction, refused whole when the slot is taken; the task's history gains REVIEW and then DONE |
| Scheduling.Worker.Attempt | execution_engine/service.py:254-308 | one attempt with anything between the attempts: exact outcome and rows, and progress if and only if it does not overwrite a cancellation |
| Scheduling.Worker.Run | execution_engine/service.py:240-310 | with nobody in between, it ends FAILED if and only if every attempt failed, else COMPLETED; the row ends with the number and the error of the attempt it stopped at, and no other execution or task changes |
| Scheduling.AttemptOk | execution_engine/service.py:254-308 | an attempt by one worker keeps one active execution an agent and a task, and every copy good |
| Scheduling.RunOk | execution_engine/service.py:125-375 | every interleaving of scheduling, cancelling and any number of workers keeps one active execution an agent and a task, and every worker's copy current or its row cancelled, which is what the worker methods ask for |
| Scheduling.RunForward | execution_engine/service.py:125-375 | in every such run an execution moves forward from each state but CANCELLED |
| Scheduling.CancelledStays | execution_engine/service.py:352-375 | in every such run a cancelled execution that no worker holds as ASSIGNED or RUNNING stays CANCELLED |
| Scheduling.CancelledLeft | execution_engine/service.py:250-308 | some such run takes a cancelled execution out of CANCELLED if and only if a worker still holds it as ASSIGNED or RUNNING |
| Scheduling.CancelledRunCompletes | execution_engine/service.py:240-375 | a run of the operations above in which CANCELLED becomes COMPLETED and the requeued task DONE |
| CircuitBreakers.RunMeaning | hardening/service.py:39-57 | under any interleaving failures is the trailing run of failed completions, the state is CLOSED if and only if that run is below the threshold, and an open breaker dates from the last failure |
| CircuitBreakers.RejectedMeaning | hardening/service.py:40-44 | with the monotonic clock read under the lock, a call is turned away if and only if at least the threshold of failures trail and the last one is less than the recovery period ago |
| CircuitBreakers.HalfOpenRecovered | hardening/service.py:41-44 | a half-open breaker has waited out its recovery period |
| CircuitBreakers.HalfOpenMeaning | hardening/service.py:40-44 | a breaker is half open exactly when enough failures trail and a call was let through since, a recovery period or more after the last of them |
| CircuitBreakers.OpenProbes | hardening/service.py:41-53 | from an open breaker each call that gets through costs a full recovery period |
| CircuitBreakers.ClosedCalls | hardening/service.py:47-53 | from a closed breaker the remaining threshold is spent before probing begins |
| CircuitBreakers.FailingOperationLoad | hardening/service.py:30-57 | in front of an operation that always fails for a time D, at most threshold + D / recovery sequential calls reach it |
| CircuitBreakers.CircuitBreaker.Begin | hardening/service.py:40-44 | the first locked section: admission and the step to half open |
| CircuitBreakers.CircuitBreaker.RecordFailure | hardening/service.py:47-52 | the locked section after an exception |
| CircuitBreakers.CircuitBreaker.RecordSuccess | hardening/service.py:54-56 | the locked section after a result |
| Snapshots.KeepBest | graph/engine.py:58-67 | one pass keeps, for each key in order of first appearance, the first item of greatest confidence; items with an unknown end are skipped |
| Snapshots.EdgesByName | graph/engine.py:58-78 | the stored edges, read by external id, are the known-ended relationships, for each typed pair the first of greatest confidence with its metadata |
| Snapshots.AdditionsUnique | graph/engine.py:151-169 | added edges join known nodes and repeat no key, neither among themselves nor of the base |
| Snapshots.AdditionsFirst | graph/engine.py:151-169 | a new typed pair enters with the confidence and metadata of its first relationship, unless the base joined it |
| Snapshots.FirstDetailExact | graph/engine.py:151-169 | that first relationship, by its position: no earlier one joins the pair with this type |
| Snapshots.BestIsFirst | graph/engine.py:174-181 | a node row holds the fields of the first entity of greatest confidence among those with its external id |
| Snapshots.CopiedStores | graph/engine.py:136-150 | renumbering keeps exactly the base edges, read by external id |
| Snapshots.DerivedEdges | graph/engine.py:136-169 | the derived edges are exactly the base edges plus the new relationships whose ends exist, confidence and metadata included |
| Snapshots.GraphEngine.Get | graph/engine.py:93-101 | the stored snapshot, or the lookup error |
| Snapshots.GraphEngine.Build | graph/engine.py:32-81 | a new snapshot with distinct external ids, no dangling edge, unique typed edges, each the first of greatest confidence with its metadata, and counts equal to contents; the others are untouched |
| Snapshots.GraphEngine.Derive | graph/engine.py:103-172 | a new well-formed snapshot that embeds the base and the new relationships; the base is untouched, an unknown base stores nothing |
| Discovery.MissInUnit | relationship_discovery/engine.py:209-211 | the noisy-or confidence of evidence in [0, 1] lies in [0, 1] |
| Discovery.AbsorbSound | relationship_discovery/engine.py:95-110 | absorbing evidence only appends, keeps identities distinct and never lowers the confidence |
| Discovery.AbsorbKnows | relationship_discovery/engine.py:95-108 | afterwards exactly the identities known before or provided now are known |
| Discovery.AbsorbExact | relationship_discovery/engine.py:95-108 | what is stored is the old evidence and then exactly the items of a new identity, the first of each, in the order provided and each at its own confidence |
| Discovery.RunKeeps | relationship_discovery/engine.py:46-112 | after each run every candidate's confidence is the noisy-or of its distinct evidence and has not dropped; decisions stand |
| Discovery.RunMeaning | relationship_discovery/engine.py:46-112 | what a run leaves of a candidate: its decision, PENDING for a new one; its evidence and then exactly the accepted items that count, at their own confidence; and the chance that all of it is wrong multiplied by one minus the confidence of each |
| Discovery.RunOneItem | relationship_discovery/engine.py:46-112 | a single item about a pair nothing was known of makes a pending candidate of exactly its confidence |
| Discovery.RunIdempotent | relationship_discovery/engine.py:46-112 | running again on the same evidence changes nothing |
| Discovery.ProposedExactly | relationship_discovery/engine.py:46-112 | a candidate exists after a run exactly when it did before or the pair has two distinct known ends, is not joined, and evidence of a known type and a confidence in [0, 1] is offered for it |
| Discovery.SettledStays | relationship_discovery/engine.py:68-69 | a run on the snapshot an approval produced never proposes the approved pair again |
| Discovery.ReproposedExactly | relationship_discovery/engine.py:46-112 | on any snapshot with both ends, a run proposes an approved pair that is no candidate there if and only if the snapshot does not join it and evidence is offered |
| Discovery.IntegratedJoins | relationship_discovery/engine.py:138-159 | the snapshot of an approval joins exactly what the candidate's own joins, and the approved pair |
| Discovery.SiblingsPropose | relationship_discovery/engine.py:138-159 | the snapshot of one approval does not join the pair of another approval of the same snapshot, so a run on it proposes that pair again exactly when evidence is offered |
| Discovery.DerivedIntegrates | graph/engine.py:103-172 | deriving with a candidate's relationship adds exactly that edge, at its confidence, and no node name |
| Discovery.ExtendKeeps | graph/engine.py:103-172 | snapshots stored by others do not disturb the candidates |
| Discovery.DerivedJoins | relationship_discovery/adapters.py:41-54 | the snapshot derived for an approval joins the approved pair |
| Discovery.Graph | relationship_discovery/adapters.py:21-39 | the node names and typed pairs a run works on are exactly those of the snapshot |
| Discovery.Group | relationship_discovery/engine.py:53-70 | the accepted evidence, and only that, grouped by pair in the order provided |
| Discovery.AddEvidence | relationship_discovery/engine.py:95-108 | evidence with a known identity is skipped, the first item of each new one is appended in order and at its own confidence |
| Discovery.NoisyOr | relationship_discovery/engine.py:209-211 | one minus the product of the chances that each piece is wrong |
| Discovery.DiscoveryEngine.Run | relationship_discovery/engine.py:46-119 | every candidate is left as Discovery.RunMeaning says, every other one is as before; the invariant is kept |
| Discovery.DiscoveryEngine.Approve | relationship_discovery/engine.py:138-159 | a pending candidate is approved and integrated into a new snapshot: the candidate's own plus exactly this edge, at its confidence; a decided one is refused and nothing changes |
| Discovery.DiscoveryEngine.Reject | relationship_discovery/engine.py:161-170 | a pending candidate is rejected; a decided one is refused and nothing changes |
| EntityMerge.StepKeeps | entity_extraction/alias_resolution.py:27-45 | for any naming rule, one merge step keeps: survivors have distinct keys, carry the greatest confidence of their class, and hold exactly the aliases and names their class contributes |
| EntityMerge.Expansion | entity_extraction/alias_resolution.py:30-34 | the name of the first other entity, from a position on, whose acronym is the surface looked for |
| EntityMerge.Run | entity_extraction/deduplication.py:10-33 | after any number of steps of either stage the merge invariant holds |
| EntityMerge.RunIds | entity_extraction/alias_resolution.py:24-43 | with distinct temporary ids, either stage's id map sends every entity seen to its survivor and knows no other ids |
| EntityMerge.Deduplicate | entity_extraction/deduplication.py:10-33 | the entity objects, the kept list and the id map end as the fold says |
| EntityMerge.CanonicalName | entity_extraction/alias_resolution.py:28-34 | a short name becomes the first other name, as names are at that moment, that has it as its acronym; else the table decides, and a name not in it stays |
| EntityMerge.ResolveAliases | entity_extraction/alias_resolution.py:20-57 | the entity objects, renamed and merged in place, the kept list and the id map end as the fold of which the lemmas below speak |
| EntityPipeline.StageExact | entity_extraction/alias_resolution.py:35-43 | either stage merges two entities if and only if it files them under the same key |
| EntityPipeline.DedupExact | entity_extraction/deduplication.py:17-23 | two extracted entities are merged if and only if their normalised names and types agree |
| EntityPipeline.FiledExactly | entity_extraction/alias_resolution.py:28-35 | the alias stage files a short name under the first other name, as names are at its turn, that has it as its acronym; else a name in the table under its table name; else under its own; always with its own type |
| EntityPipeline.SurvivorNamed | entity_extraction/alias_resolution.py:28-41 | a survivor ends with the name it was filed under, by the same three cases |
| EntityPipeline.ComposedExact | entity_extraction/pipeline.py:30-43 | the composed map merges two extracted entities exactly when the alias stage files the survivors of their deduplication under one key |
| EntityPipeline.TableMerges | entity_extraction/alias_resolution.py:28-43 | two extracted entities that nothing abbreviates to, or that are long, are merged by the composed map exactly when their types agree and the table takes their normalised names to the same one |
| EntityPipeline.AcronymMerges | entity_extraction/alias_resolution.py:30-43 | a short name is merged with the one entity of its type it is the acronym of |
| EntityPipeline.EveryEntitySurvives | entity_extraction/pipeline.py:18-19 | the composed map sends every extracted entity to a survivor of its type, at least its confidence, with its name as name or alias and all its aliases |
| EntityPipeline.ConfidenceAttained | entity_extraction/deduplication.py:24-24 | a survivor's confidence is that of some entity of its class, hence with the previous row the maximum |
| EntityPipeline.AliasesComeFromClass | entity_extraction/alias_resolution.py:44-44 | no alias is invented: each was an alias or name of an entity of the class |
| EntityPipeline.SurvivorsDistinct | entity_extraction/alias_resolution.py:35-41 | the final survivors differ pairwise in normalised name or type, and in temporary id |
| EntityPipeline.KeptExact | entity_extraction/pipeline.py:57-69 | a triple is stored if and only if a relation resolves to it, with the confidence of the first that does |
| EntityPipeline.KeptUnique | entity_extraction/pipeline.py:57-64 | final relations are numbered from one and no triple occurs twice |
| EntityPipeline.AccountedFor | entity_extraction/pipeline.py:48-60 | every relation is kept or logged if and only if no two resolve to the same triple |
| EntityPipeline.RepeatIsSilent | entity_extraction/pipeline.py:58-59 | for any two extracted entities of different types and a relation between them repeated under any id: the first is stored, the second leaves no log |
| EntityPipeline.UnresolvedExact | entity_extraction/pipeline.py:44-56 | a relation is logged as unresolved if and only if an end was never extracted or both ends were merged into one entity |
| EntityPipeline.UnresolvedInOrder | entity_extraction/pipeline.py:44-56 | the log holds exactly the unresolved relations, each once, in order |
| EntityPipeline.EndsExist | entity_extraction/pipeline.py:44-48 | the ends of a final relation are existing, distinct final entities: those its ends were merged into |
| EntityPipeline.TypesStayApart | entity_extraction/alias_resolution.py:35-43 | entities of different types are never merged into one, by either stage |
| EntityPipeline.RewriteRelations | entity_extraction/pipeline.py:40-69 | the relation loop returns exactly the kept relations and the logged ids |
| EntityPipeline.RunPipeline | entity_extraction/pipeline.py:30-69 | extracted entities and relations in, the resolved entities and rewritten relations of the two lemma groups above out |

## Left out

- Floating-point error and every `round(...)`: the metrics, confidences and scores are exact reals, so equalities and bounds are stated without a rounding margin.
- Influence.Metrics: takes entity ids as distinct and leaves out the stored baseline, history and explanations around the metrics.
- GraphSearch.Neighbors: takes edge ids as distinct; the sorted visiting order and the sorted presentation of results are left open, so the results hold for every order; `search` itself (filters and one sort) is left out.
- Rbac.Service.CreateRole: a row id is a parameter, as the database would draw it; list operations and transport are left out.
- RateLimit.MemoryBackend.TokenBucket: `now` is a parameter and the lock is not modelled, a call being one atomic step; the Redis backend is left out.
- Sessions.AuthenticationService.Refresh: two refreshes racing between check and commit are left out, each call being atomic; user creation, client addresses and the `iat` and `jti` checks of the token library are left out.
- Scheduling.Database.UpdateTask: title, description, sprint and project fields, audit logs and the reference checks on sprints and projects are left out.
- Scheduling.Database.StartWork: the row locks that skip tasks or agents held by another transaction are not modelled; each scheduling call is atomic.
- Scheduling.RunOk: an execution has one worker, the call that scheduled it; the attempts of these runs carry any number and any outcome, which includes the order of the retry loop. The calls on tasks alone are not steps of them, because they write no execution; Scheduling.Database.Valid covers those calls.
- Scheduling.Worker.Attempt: the worker's results are parameters; two commits that interleave inside one attempt, the sleep between attempts, timestamps and durations are not modelled.
- CircuitBreakers.CircuitBreaker.Begin: the clock is a parameter; bulkheads and timeouts of the same file are left out.
- Snapshots.GraphEngine.Build: node fields other than id, external id and confidence, and edge fields other than the ends, type and confidence, are one opaque payload each; choosing the latest snapshot by creation time is left out.
- Discovery.DiscoveryEngine.Run: the evidence provider's items and the set of known relationship types are parameters; candidates are addressed by their unique snapshot, ends and type instead of a row id; the metadata an approval writes is a parameter; decision notes and timestamps are left out.
- EntityMerge.ResolveAliases: alias lists are sets, because the source sorts and deduplicates them; resolution logs of the two merges are left out.
- EntityPipeline.RunPipeline: extraction, the scaling of ambiguous confidences by 0.85, final names and knowledge-graph ids are left out; final entities and relations are identified by their numbers.
- PageRank.Converges: that a stationary ranking exists is not proved; PageRank.CauchyBound and PageRank.StopStays bound the iterates without one.
- Routers, schemas, persistence plumbing, notifications, audit writing, exporters, provider clients and the frontend are not modelled.
- Regular-expression extraction, intent rules, embeddings and fuzzy matching are not modelled.
- Cache tags, benchmark ranks, baselines, report versions, alert rules, retention, analytics percentiles and organization limits are not modelled.
