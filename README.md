# Pickup-and-delivery planning agents: chains, local search and deliberative search

This project models, in Dafny, the planning core of a set of logistics agents.
Each agent drives vehicles that pick up tasks (a weight to carry from a pickup
city to a delivery city) and deliver them. Two groups of code are modelled.

**Chains and stochastic local search** (the centralized and auction agents).
- A solution stores each vehicle's actions as a linked chain. A map sends each
  vehicle to its first action, and another map sends each action to the next
  one, or to nothing at the chain's end.
- An action is the pickup or the delivery of one task. It carries a signed
  capacity change: minus the weight for a pickup, plus the weight for a
  delivery.
- The model keeps, next to the maps, a ghost list of each vehicle's chain and
  proves that the maps link exactly that list.
- Feasibility of a chain means three things:
  - no action repeats;
  - every delivery follows its pickup on the same chain;
  - the free space after every prefix stays between 0 and the capacity.
- Neighbour generation moves a task between vehicles or re-places it within
  one vehicle. The search keeps the best solution so far. The auction agent
  adds a task speculatively (`addTask`) and later commits it
  (`consolidatePlan`).
- Neighbour solutions are fresh objects built by updating clones, as in the
  source.

**Deliberative search support** (the A* and breadth-first planners).
- A city → task-list multimap with add, remove and clone.
- A union-find over two maps.
- Weighted edges.
- A search state that delivers what it can at its city and estimates the
  remaining cost by Kruskal's algorithm over the pending cities.
- The two planners. They share successor generation and a frontier-admission
  rule: a visited map keyed by a state's hash re-admits a state only when its
  distance strictly improves on the recorded one.

**How the environment appears in the model.**
- Distances are `nat` units given by a function parameter.
- Randomness is an argument: a draw sequence or an order.
- Time budgets become an iteration budget (the length of the draw sequence,
  or a `fuel` count).
- A Java exception becomes a `thrown` flag or an `Outcome`/`Option` case.

Edges are the datatype `Edges.Edge`: its constructor stores both endpoints
and the weight unchanged.

## Model

| member | source | states |
|---|---|---|
| Actions.PairBalanced | 4-centralized/src/template/Action.java:11-42 | The pickup and the delivery of one task are different keys, and their capacity changes cancel out |
| Actions.Partner | 4-centralized/src/template/Action.java:11-42 | Every action has a partner: the other action of the same task, distinct from it, with the opposite capacity change |
| Chains.LinkedDistinct | 5-auction/src/template/Solution.java:114-141 | Following the next-action map from a vehicle's head never meets an action twice, so the walk ends |
| Chains.LinkedPrepend | 5-auction/src/template/SLS.java:146-148 | Linking a new pickup to its delivery and the delivery to the old head yields the chain [pickup, delivery] followed by the old chain |
| Chains.LinkedSkip | 5-auction/src/template/SLS.java:419-424 | Linking the predecessor of an action to that action's successor removes exactly that action from the chain |
| Chains.LinkedInsert | 5-auction/src/template/SLS.java:368-369 | Linking x after position e, and x to e's old successor, inserts x at position e+1 and leaves the rest of the chain in order |
| Chains.NoRepeat | 5-auction/src/template/Solution.java:114-141 | Two positions of a linked chain never hold the same action |
| Chains.LinkedFrame | 5-auction/src/template/SLS.java:142-148 | Changing the successors of actions off a chain leaves that chain linked as it was |
| Chains.LinkedTail | 5-auction/src/template/SLS.java:413-414 | The successor of a chain's first action heads the rest of the chain |
| Chains.LinkedAppend | 4-centralized/src/template/Solution.java:115-150 | Linking the last action to a new pickup, the pickup to its delivery and the delivery to null extends the chain by that pair |
| Plans.RouteStepsActions | 5-auction/src/template/Solution.java:114-141 | The plan of a chain holds exactly one pickup or delivery step per action, in chain order, with only moves in between |
| Plans.RouteDistance | 5-auction/src/template/Solution.java:120-137 | The distance of a chain's plan is the sum of the legs between consecutive action cities, starting at the vehicle's city |
| Plans.RouteDeliveries | 4-centralized/src/template/Solution.java:226-237 | A chain's plan has as many delivery steps as the chain has delivery actions |
| Plans.TotalCostAllEmpty | 5-auction/src/template/Solution.java:184-194 | A solution whose plans are all empty costs 0 |
| Plans.TotalCostUpdate | 5-auction/src/template/Solution.java:184-194 | Replacing one plan changes the zipped total by exactly that vehicle's difference; a plan past the end of the fleet does not count |
| Plans.PairRoute | 5-auction/src/template/Solution.java:61-88 | The plan of a one-task chain moves to the pickup city, picks up, moves to the delivery city and delivers |
| PairSplice.InsertPairFits | 5-auction/src/template/SLS.java:358-366 | Splicing a task's pickup and delivery into a chain that fits keeps it within capacity exactly when the free space between the two positions covers the weight |
| PairSplice.SplicedFits | 5-auction/src/template/SLS.java:358-366 | A splice within capacity leaves at least the task's weight free from the pickup up to the delivery |
| PairSplice.InsertPairShape | 5-auction/src/template/SLS.java:325-377 | Splicing a new task's pair into a chain keeps every action unique, every pickup before its delivery, and adds exactly the two actions |
| PairSplice.RemovePair | 5-auction/src/template/SLS.java:399-429 | Removing a task's pickup and delivery from a feasible chain leaves a feasible chain holding every other action |
| PairSplice.SpliceElems | 5-auction/src/template/SLS.java:358-369 | A splice holds the chain's actions plus the task's pickup and delivery, and nothing else |
| FeasibilityLoad.ClosedLoad | 5-auction/src/template/SLS.java:358-366 | A duplicate-free sequence in which every delivery follows its pickup never frees more space than it uses |
| FeasibilityLoad.PairedPrefixLoad | 5-auction/src/template/SLS.java:358-366 | Every prefix of a well-paired chain leaves at most the vehicle's capacity free |
| AuctionSolution.Solution.constructor | 5-auction/src/template/Solution.java:29-34 | A new solution has no plans, empty maps and an empty chain for every vehicle |
| AuctionSolution.Solution.NaivePlan | 5-auction/src/template/Solution.java:61-88 | The vehicle's head becomes Pickup(t), which links to Delivery(t), which ends the chain; the plan returned is the route of that chain and no other chain changes |
| AuctionSolution.Solution.InitSolutionSingle | 5-auction/src/template/Solution.java:42-52 | One plan is appended per vehicle in fleet order: the two-step plan for v, the empty plan for every other vehicle, whose head becomes null |
| AuctionSolution.Solution.Clone | 5-auction/src/template/Solution.java:90-107 | The clone is a fresh object with the same maps, plans and chains; the maps are values, so later updates of the clone cannot reach the original |
| AuctionSolution.Solution.UpdatePlan | 5-auction/src/template/Solution.java:114-141 | Only plans[v.id] changes, and it becomes the plan of v's chain |
| AuctionSolution.WalkRenamed | 5-auction/src/template/Solution.java:154-171 | Walking a linked chain yields its plan with every task replaced by the task recorded under its id |
| AuctionSolution.Solution.FinalPlan | 5-auction/src/template/Solution.java:148-175 | Only plans[v.id] changes, to v's plan with every task replaced by the task recorded under its id |
| AuctionSolution.RetaskDistance | 5-auction/src/template/Solution.java:148-175 | Replacing the tasks of a plan leaves its distance unchanged |
| AuctionSolution.RetaskDeliveries | 5-auction/src/template/Solution.java:148-175 | Replacing the tasks of a plan leaves its number of deliveries unchanged |
| AuctionSolution.Solution.TotalCost | 5-auction/src/template/Solution.java:184-194 | The accumulated cost equals the zipped sum of distance times cost per unit over the vehicles and plans |
| CentralizedInit.BiggestIsFirstMax | 4-centralized/src/template/Solution.java:35-43 | The chosen index is -1 exactly when every capacity is 0; otherwise it is the first vehicle of largest capacity |
| CentralizedInit.NaiveChainShape | 4-centralized/src/template/Solution.java:110-153 | The naive chain is P1, D1, P2, D2, …: the k-th task's pickup at 2k and its delivery right after |
| CentralizedInit.NaiveChainElems | 4-centralized/src/template/Solution.java:110-153 | The naive chain holds an action exactly when its task is one of the given tasks |
| CentralizedInit.FirstFitNone | 4-centralized/src/template/Solution.java:81-87 | The skipping loop finds no vehicle exactly when every capacity is below the weight |
| CentralizedInit.FirstFitMisses | 4-centralized/src/template/Solution.java:81-84 | Every vehicle the skipping loop passes over is too small for the task |
| CentralizedInit.RoundRobinStep | 4-centralized/src/template/Solution.java:76-91 | A task that fits is given to the counter's vehicle, and the rest continue from the next counter |
| CentralizedInit.RoundRobinStuck | 4-centralized/src/template/Solution.java:85-87 | A task that fits no vehicle makes the whole distribution fail |
| CentralizedInit.RoundRobinFits | 4-centralized/src/template/Solution.java:76-91 | Every task is assigned to a vehicle index whose capacity is at least the task's weight |
| CentralizedInit.RoundRobinFails | 4-centralized/src/template/Solution.java:76-91 | The assignment fails exactly when some task fits no vehicle at all |
| CentralizedInit.AssignedDisjoint | 4-centralized/src/template/Solution.java:89 | A task lands in one vehicle's share only |
| CentralizedInit.AssignedMember | 4-centralized/src/template/Solution.java:89 | A task is in vehicle i's share exactly when its assignment is i |
| CentralizedInit.AssignedDistinct | 4-centralized/src/template/Solution.java:89 | Each share of a duplicate-free task list is duplicate-free |
| CentralizedInit.AssignedFits | 4-centralized/src/template/Solution.java:81-100 | Every task in a vehicle's share weighs at most that vehicle's capacity |
| CentralizedSolution.SharesPartition | 4-centralized/src/template/Solution.java:76-91 | The shares hold every task exactly once between them and no duplicate within one |
| CentralizedSolution.SingleDeliversAll | 4-centralized/src/template/Solution.java:34-57 | After the single-vehicle start, the plans together deliver every task once |
| CentralizedSolution.MultipleDeliversAll | 4-centralized/src/template/Solution.java:62-101 | After the round-robin start, the plans together deliver every task once |
| CentralizedSolution.NaiveDeliveries | 4-centralized/src/template/Solution.java:110-153 | The naive plan of a task list delivers as many tasks as the list holds |
| CentralizedSolution.Solution.constructor | 4-centralized/src/template/Solution.java:22-28 | A new solution has no plans, empty maps and an empty chain for every vehicle |
| CentralizedSolution.Solution.NaivePlan | 4-centralized/src/template/Solution.java:110-153 | For a non-empty task list the head is the first pickup and the maps link the naive chain; the plan is that chain's route; actions of other tasks keep their successors |
| CentralizedSolution.Solution.NaiveLinks | 4-centralized/src/template/Solution.java:115-150 | The linking loop builds the naive chain in the maps and leaves every other task's action untouched |
| CentralizedSolution.Solution.IndexBiggestVehicle | 4-centralized/src/template/Solution.java:35-43 | The loop returns the first index of largest positive capacity, or -1 |
| CentralizedSolution.Solution.PlanBiggest | 4-centralized/src/template/Solution.java:49-56 | One plan per vehicle is appended: the given plan at the biggest vehicle and the empty plan elsewhere; every other head becomes null |
| CentralizedSolution.Solution.InitSolutionSingle | 4-centralized/src/template/Solution.java:34-57 | With no vehicle of positive capacity it fails and changes nothing; otherwise all tasks are chained on the biggest vehicle and every other vehicle is empty |
| CentralizedSolution.Solution.EmptyShares | 4-centralized/src/template/Solution.java:71-74 | One empty share per vehicle, and the capacities in fleet order |
| CentralizedSolution.Solution.SkipSmall | 4-centralized/src/template/Solution.java:81-84 | The counter reaches the fleet size exactly when no vehicle fits; otherwise it stops at the first fitting vehicle in round-robin order |
| CentralizedSolution.Solution.DistributeTasks | 4-centralized/src/template/Solution.java:76-91 | It fails exactly when the round-robin assignment does, and otherwise each vehicle's share is the tasks assigned to it, in order |
| CentralizedSolution.Solution.PlanShares | 4-centralized/src/template/Solution.java:93-100 | Each vehicle gets the naive plan of its share, or the empty plan; the maps link each non-empty share's chain |
| CentralizedSolution.Solution.InitSolutionMultiple | 4-centralized/src/template/Solution.java:62-101 | It throws (fails, nothing changed) exactly when a task fits no vehicle; otherwise each vehicle's chain is the naive chain of its round-robin share |
| CentralizedSolution.Solution.Clone | 4-centralized/src/template/Solution.java:159-177 | The clone is a fresh object with the same three maps, plans and chains |
| CentralizedSolution.Solution.UpdatePlan | 4-centralized/src/template/Solution.java:184-211 | Only plans[v.id] changes, and it becomes the plan of v's chain |
| CentralizedSolution.Solution.TotalCost | 4-centralized/src/template/Solution.java:214-224 | The accumulated cost equals the zipped sum of distance times cost per unit |
| CentralizedSolution.Solution.PrintNumberOfTasks | 4-centralized/src/template/Solution.java:226-237 | The count is the number of delivery steps over all plans |
| Moves.TransferFeasible | 5-auction/src/template/SLS.java:387-449 | Moving the first task of one vehicle to the front of another that can carry it keeps every chain feasible |
| Moves.TransferCarried | 5-auction/src/template/SLS.java:387-449 | That move keeps the set of actions carried by the fleet |
| Moves.ReorderingsFeasible | 5-auction/src/template/SLS.java:325-377 | Every re-placement of a chain's first task is feasible, keeps the chain's actions, and is the first pair spliced back into the rest |
| Moves.ReorderingsComplete | 5-auction/src/template/SLS.java:325-377 | Every splice of the first pair into the rest that fits the capacity is among the re-placements |
| Moves.AsWrittenOverCapacity | 5-auction/src/template/SLS.java:344-366 | The loop as written emits a re-placement that exceeds the capacity, for a concrete feasible chain |
| Moves.AsWrittenMissesPlacement | 5-auction/src/template/SLS.java:344-366 | For a concrete feasible chain, the front pair placed right after the rest's first action fits the capacity and is a corrected re-placement, yet the loop as written never emits it |
| Moves.AsWrittenNeverSecond | 5-auction/src/template/SLS.java:344-359 | On that chain, no neighbour emitted as written has the pickup second |
| Moves.CorrectedOffersPlacement | 5-auction/src/template/SLS.java:344-366 | On that chain, the corrected loop offers that placement within capacity |
| Moves.OneVehicleFeasible | 5-auction/src/template/SLS.java:255-317 | Every single-vehicle neighbour is feasible and keeps the chain's actions |
| Moves.FrontOk | 5-auction/src/template/SLS.java:268-304 | Moving a pickup to the front of a feasible chain with its delivery right after keeps the chain feasible and its actions |
| Moves.ReplaceFeasible | 5-auction/src/template/SLS.java:445-446 | Replacing one vehicle's chain by a feasible order of the same actions keeps the fleet feasible and what it carries |
| Moves.LiftFeasible | 5-auction/src/template/SLS.java:220-241 | Every fleet built by replacing one chain with one of several such orders is feasible and carries the same |
| Moves.UsedComplete | 5-auction/src/template/SLS.java:210-215 | Every vehicle with a non-empty chain is listed among the used vehicles |
| Moves.CandidatesFeasible | 5-auction/src/template/SLS.java:220-241 | Every neighbour made from a used vehicle is feasible and carries the same actions |
| Moves.NeighboursFeasible | 5-auction/src/template/SLS.java:202-244 | While any task is carried, neighbours are defined, and each of them is feasible and carries the same actions |
| Moves.AddFeasible | 5-auction/src/template/SLS.java:138-154 | Putting a new task's pickup and delivery at the front of a vehicle that can carry it keeps the fleet feasible and adds exactly those two actions |
| Moves.SingleFeasible | 5-auction/src/template/SLS.java:124-125 | The start with one task on one vehicle is feasible and carries exactly that task |
| SlsState.ToLong | 5-auction/src/template/SLS.java:53 | The conversion to a 64-bit long saturates at the bounds and is exact in between |
| SlsState.FirstCarrierFound | 5-auction/src/template/SLS.java:139-154 | No vehicle is found exactly when no vehicle in the shuffled order has the capacity |
| SlsState.CarriedNone | 5-auction/src/template/SLS.java:107 | A fleet carries nothing exactly when every chain is empty |
| SlsState.BootstrapAsWrittenDropsTask | 5-auction/src/template/SLS.java:107-128 | The zero-cost test as written accepts a solution that already carries a task, and the start it then builds no longer carries that task |
| SlsState.PlansCostChains | 5-auction/src/template/Solution.java:184-194 | Plans whose distances equal those of the chains' plans give totalCost the cost of the chains |
| SlsState.SoundCost | 5-auction/src/template/Solution.java:184-194 | A sound solution's totalCost is the cost of its chains |
| SlsState.CheapestFleet | 5-auction/src/template/SLS.java:459-472 | localChoice's scan: no fleet is cheaper than the one taken and every earlier one is dearer |
| SlsState.FirstCheapestUnique | 5-auction/src/template/SLS.java:459-472 | Only one index is the first of the cheapest fleets |
| SlsState.Next | 5-auction/src/template/SLS.java:180 | A round is undefined exactly when no vehicle has a task or no neighbour is offered; otherwise its fleet is feasible and carries the same actions |
| SlsState.Walk | 5-auction/src/template/SLS.java:176-186 | The fleets visited start at the initial fleet, one more per round at most |
| SlsState.Search | 5-auction/src/template/SLS.java:169-193 | The answer is the best fleet met before or strictly cheaper; with no round it is that best and nothing is thrown |
| SlsState.SearchStep | 5-auction/src/template/SLS.java:180-185 | A round that moves replaces the best only when the new fleet is strictly cheaper, and the search goes on from the new fleet |
| SlsState.WalkWalked | 5-auction/src/template/SLS.java:176-186 | Each step of the walk is a round that moves under its draw, and a walk cut short ends at a round that cannot move |
| SlsState.SearchThrows | 5-auction/src/template/SLS.java:176-186 | The search throws exactly when its walk is cut short |
| SlsState.SearchOnWalk | 5-auction/src/template/SLS.java:169-186 | On the walk, the answer is the best met before when no fleet of the walk is cheaper, and otherwise the walk's first cheapest fleet, strictly cheaper than that best |
| SlsState.SettlesCons | 5-auction/src/template/SLS.java:182-185 | Putting the current fleet in front of the rest of the walk keeps the answer settled |
| SlsState.SearchFirstLeast | 5-auction/src/template/SLS.java:164-193 | findBestsolution's answer is the first cheapest fleet of its walk |
| Sls.SLS.constructor | 5-auction/src/template/SLS.java:34-41 | The best and the potential solutions start empty for the given fleet |
| Sls.SLS.UnlinkFirst | 5-auction/src/template/SLS.java:399-429 | The first task's pickup and delivery are unlinked from the vehicle, the rest staying in order |
| Sls.SLS.WalkToDelivery | 5-auction/src/template/SLS.java:413-428 | The walk stops at the action right before the first task's delivery |
| Sls.SLS.LinkFront | 5-auction/src/template/SLS.java:432-443 | The pair becomes the vehicle's first two actions, ahead of its old chain |
| Sls.SLS.MoveFirst | 5-auction/src/template/SLS.java:399-443 | The chains become those of the transfer move |
| Sls.SLS.RecomputeTwo | 5-auction/src/template/SLS.java:445-446 | Recomputing both vehicles' plans makes every plan agree with its chain again |
| Sls.SLS.ChangingVehicles | 5-auction/src/template/SLS.java:387-449 | null when the task is too heavy for the target vehicle; otherwise a fresh sound solution whose chains are the transfer move |
| Sls.SLS.HeadAfterPair | 5-auction/src/template/SLS.java:341 | The shared base solution's chain starts after the pair |
| Sls.SLS.PickFirst | 5-auction/src/template/SLS.java:346-350 | The first row keeps the pickup in front, followed by the rest (corrected loop, see "## Findings" row 1) |
| Sls.SLS.PickAfter | 5-auction/src/template/SLS.java:352-355 | A later row puts the pickup right after the a-th action of the rest (corrected loop, see "## Findings" row 1) |
| Sls.SLS.PlacePick | 5-auction/src/template/SLS.java:345-359 | The row's base solution links the pickup at position a of the rest, and the running free space is the capacity after the first a actions of the rest (corrected loop, see "## Findings" row 1) |
| Sls.SLS.DropAfter | 5-auction/src/template/SLS.java:366-370 | The neighbour is a fresh sound solution whose chain is the row with the delivery inserted after the given action (corrected loop, see "## Findings" row 1) |
| Sls.SLS.AddDrop | 5-auction/src/template/SLS.java:362-373 | One inner iteration emits the neighbour with the delivery at position e and advances the inner loop (corrected loop, see "## Findings" row 1) |
| Sls.SLS.DropRow | 5-auction/src/template/SLS.java:361-374 | One pass of the inner loop emits the delivery positions of one row (corrected loop, see "## Findings" row 1) |
| Sls.SLS.OrderRow | 5-auction/src/template/SLS.java:344-375 | One pass of the outer loop emits one row's neighbours (corrected loop, see "## Findings" row 1) |
| Sls.SLS.AddRow | 5-auction/src/template/SLS.java:358-374 | One row's neighbours are emitted and the outer loop moves to the next position (corrected loop, see "## Findings" row 1) |
| Sls.SLS.OrderRows | 5-auction/src/template/SLS.java:341-375 | The outer loop emits the neighbours of every row (corrected loop, see "## Findings" row 1) |
| Sls.SLS.ChangingOrder | 5-auction/src/template/SLS.java:325-377 | The neighbours emitted are exactly the re-placements of the first task, each as a fresh solution differing from the input at this vehicle only; none for a chain shorter than three actions (corrected loop, see "## Findings" row 1) |
| Sls.SLS.RelinkMap | 5-auction/src/template/SLS.java:255-317 | The new next-action map links the given order and keeps every other action's successor |
| Sls.SLS.ChainOf | 5-auction/src/template/SLS.java:413-428 | Walking the next-action map from the head reads back the vehicle's chain |
| Sls.SLS.Relink | 5-auction/src/template/SLS.java:255-317 | The vehicle's chain becomes the given order of the same actions |
| Sls.SLS.FrontOrders | 5-auction/src/template/SLS.java:268-310 | With one pickup moved to the front beside its delivery, the re-placements of that task are emitted (corrected loop, see "## Findings" row 1) |
| Sls.SLS.ChangeOneVehicle | 5-auction/src/template/SLS.java:255-317 | For every pickup on the chain, the task is moved to the front and re-placed; the neighbours are exactly these (corrected loop, see "## Findings" row 1) |
| Sls.SLS.UsedVehicles | 5-auction/src/template/SLS.java:210-215 | The used vehicles are exactly those with a non-empty chain, in fleet order |
| Sls.SLS.CandidatesFor | 5-auction/src/template/SLS.java:221-239 | For one target vehicle: nothing if the task is too heavy, otherwise the transfer followed by its re-placements (corrected loop, see "## Findings" row 1) |
| Sls.SLS.CandidatesOf | 5-auction/src/template/SLS.java:220-241 | The neighbours for every target vehicle other than the chosen one, in fleet order (corrected loop, see "## Findings" row 1) |
| Sls.SLS.ChooseNeighbors | 5-auction/src/template/SLS.java:202-244 | It throws exactly when the neighbour generation is undefined (no used vehicle to draw from); otherwise it returns the specified neighbours (corrected loop, see "## Findings" row 1) |
| Sls.SLS.LocalChoice | 5-auction/src/template/SLS.java:458-480 | It throws exactly on an empty list; otherwise it returns an element: the first cheapest on the greedy branch, the drawn one otherwise |
| Sls.SLS.ChosenCarries | 5-auction/src/template/SLS.java:180 | A chosen neighbour is sound and carries the same actions as the solution it came from |
| Sls.SLS.FindBestSolution | 5-auction/src/template/SLS.java:164-193 | The result is sound, carries the same actions and is the input or strictly cheaper; its chains and the exception flag are exactly Search from the input fleet, whose answer is the first cheapest fleet of the walk (SearchFirstLeast); with no round it is the input |
| Sls.SLS.Round | 5-auction/src/template/SLS.java:180 | One round of chooseNeighbors then localChoice: stuck exactly when Next is undefined, otherwise a sound solution whose chains are Next's fleet |
| Sls.SLS.ChoiceMoves | 5-auction/src/template/SLS.java:458-480 | What localChoice takes from the offered solutions, the first cheapest on the greedy branch or the drawn one, is Next's fleet |
| Sls.SLS.NoTasks | 5-auction/src/template/SLS.java:107 | True exactly when every chain is empty |
| Sls.SLS.Cheapest | 5-auction/src/template/SLS.java:109-122 | The first vehicle of least start cost among those that can carry the task, or none exactly when no vehicle can |
| Sls.SLS.FirstFit | 5-auction/src/template/SLS.java:136-154 | The first vehicle in the shuffled order whose capacity covers the weight |
| Sls.SLS.StartSingle | 5-auction/src/template/SLS.java:124-125 | The empty solution becomes the one-task start on the chosen vehicle |
| Sls.SLS.LinkNew | 5-auction/src/template/SLS.java:142-148 | The new pair is linked at the front of the vehicle's chain |
| Sls.SLS.AddFirst | 5-auction/src/template/SLS.java:141-150 | The new pair is linked at the front and the plan is recomputed; the solution stays sound and carries the two new actions too |
| Sls.SLS.Bootstrap | 5-auction/src/template/SLS.java:107-128 | null exactly when no vehicle can carry the task; otherwise the start on the first cheapest vehicle (corrected test, see "## Findings" row 2) |
| Sls.SLS.Extend | 5-auction/src/template/SLS.java:130-161 | null exactly when no vehicle can carry the task; otherwise a sound solution carrying the old actions and the new pair, whose fleet and thrown flag are those of `SlsState.Extended`: the task in front of the first vehicle of the order that can carry it, then the search from there, or the spliced fleet when the search throws |
| Sls.SLS.NewPotential | 5-auction/src/template/SLS.java:104-161 | null exactly when no vehicle can carry the task; otherwise it carries the old actions and the new pair; from an empty fleet it is the cheapest start (corrected test, see "## Findings" row 2), and from a fleet with tasks its fleet and thrown flag are `SlsState.Extended`'s |
| Sls.SLS.Build | 5-auction/src/template/SLS.java:99-162 | best is neither replaced nor changed; the potential solution is null exactly when no vehicle can carry the task and otherwise carries best's actions plus the new pair; from an empty best it is the cheapest start (corrected test, see "## Findings" row 2), and from a best with tasks its fleet and thrown flag are `SlsState.Extended`'s |
| Sls.SLS.Bid | 5-auction/src/template/SLS.java:52-56 | The bid is the saturated cost difference, or the largest long when there is no potential solution |
| Sls.SLS.AddTask | 5-auction/src/template/SLS.java:48-57 | best is unchanged; unless the local search throws, the bid is the saturated potential cost minus best cost, or the largest long when no vehicle can carry the task (corrected test, see "## Findings" row 2) |
| Sls.SLS.ConsolidatePlan | 5-auction/src/template/SLS.java:62-64 | best becomes a fresh copy of the potential solution; a null potential solution throws and leaves best as it was |
| Mappings.GroupedFilters | 3-deliberative/src/template/Mapping.java:27-60 | Each city's list holds exactly the tasks filed under that city, in iteration order, and only cities with tasks are keys |
| Mappings.GroupedShape | 3-deliberative/src/template/Mapping.java:27-60 | The grouped map files every task exactly once, under its own city, with no empty list |
| Mappings.Mapping.constructor | 3-deliberative/src/template/Mapping.java:27-60 | The new mapping is the tasks grouped by pickup or delivery city |
| Mappings.Mapping.Empty | 3-deliberative/src/template/Mapping.java:66-68 | The new mapping is empty |
| Mappings.Mapping.Add | 3-deliberative/src/template/Mapping.java:75-88 | The task is appended to the city's list, which is created when missing; every other city is unchanged |
| Mappings.Mapping.RemoveTask | 3-deliberative/src/template/Mapping.java:96-102 | An absent city throws and changes nothing; otherwise the task's first occurrence is removed and an emptied city disappears |
| Mappings.Mapping.Clone | 3-deliberative/src/template/Mapping.java:108-114 | The clone is a fresh object with the same contents; its lists are values, so changing them cannot reach the original |
| Mappings.AddedSize | 3-deliberative/src/template/Mapping.java:75-88 | Adding a task raises the total task count by one |
| Mappings.RemovedSize | 3-deliberative/src/template/Mapping.java:96-102 | Removing a present task lowers the total task count by one |
| Mappings.WithoutPresent | 3-deliberative/src/template/Mapping.java:98 | Removing a present task shortens the list by one and removes one copy of the task |
| Mappings.UpdatesKeepShape | 3-deliberative/src/template/Mapping.java:75-102 | Adding and removing keep every list non-empty, and keep every task filed under its own city |
| Mappings.GroupedBag | 3-deliberative/src/template/Mapping.java:27-60 | The constructor files exactly the given tasks |
| Mappings.AddedBag | 3-deliberative/src/template/Mapping.java:75-88 | add files exactly one more task |
| Mappings.RemovedBag | 3-deliberative/src/template/Mapping.java:96-102 | removeTask of a listed task files exactly that task fewer |
| Mappings.BagAt | 3-deliberative/src/template/Mapping.java:20-116 | The filed tasks are any city's list plus the other cities' tasks |
| UnionFind.Set.constructor | 3-deliberative/src/template/Set.java:21-25 | The union-find starts with no sets and identifier 0 |
| UnionFind.Set.MakeSet | 3-deliberative/src/template/Set.java:31-37 | {a} is filed under the fresh identifier, which then goes up by one; for a new element the two maps stay in agreement |
| UnionFind.Set.FindSet | 3-deliberative/src/template/Set.java:44-46 | An element's identifier, defined exactly for elements made; the element is listed in that set |
| UnionFind.Set.Union | 3-deliberative/src/template/Set.java:53-63 | It throws on an element never made; if both share an identifier nothing changes; otherwise b's set joins a's, b's members take a's identifier, b's identifier goes, and there is one set fewer |
| UnionFind.Set.Relabel | 3-deliberative/src/template/Set.java:58-61 | Every listed member is recorded under the new identifier, and every other element keeps its own |
| UnionFind.Joined | 3-deliberative/src/template/Set.java:53-63 | Merging two different sets keeps the two maps in agreement and removes one set |
| UnionFind.OneSet | 3-deliberative/src/template/Set.java:31-64 | When every element has the same identifier there is exactly one set |
| UnionFind.IdsInUse | 3-deliberative/src/template/Set.java:31-64 | Every recorded set has at least one element recorded under its identifier |
| Edges.CompareTo | 3-deliberative/src/template/Edge.java:27-37 | -1 exactly when the weight is smaller, 1 exactly when it is larger, 0 exactly when they are equal |
| Edges.CompareTransitive | 3-deliberative/src/template/Edge.java:27-37 | The order is transitive |
| CustomPlans.AppendedSteps | 3-deliberative/src/template/State.java:136-137 | Appending pickups or deliveries adds one step per task in order, without moving the plan or adding distance |
| CustomPlans.AppendedCounts | 3-deliberative/src/template/State.java:136-137 | Appending pickups adds exactly those tasks to the picked-up ones, appending deliveries exactly those to the dropped-off ones |
| States.PendingEmpty | 3-deliberative/src/template/State.java:73-98 | With no empty list, there are no pending cities exactly when both mappings are empty |
| States.HeuristicNothingPending | 3-deliberative/src/template/State.java:66-119 | With no pending city the heuristic is 0 |
| States.AddCity | 3-deliberative/src/template/State.java:78-85 | A city not seen yet is appended and made a singleton set |
| States.AddTaskCities | 3-deliberative/src/template/State.java:76-86 | A task's cities join the list, each once |
| States.AddCities | 3-deliberative/src/template/State.java:74-98 | The cities of every task in a list join the list, each once |
| States.AddMapCities | 3-deliberative/src/template/State.java:74-98 | The cities of every task of a mapping join the list, each once |
| States.AllEdges | 3-deliberative/src/template/State.java:101-105 | An edge is made for every pair of distinct listed cities, weighted by their distance, and no other edge |
| States.MinEdge | 3-deliberative/src/template/State.java:111 | The edge polled has the least weight in the queue |
| States.PollJoin | 3-deliberative/src/template/State.java:112-114 | Taking a least edge between two different sets and joining them keeps the forest invariant |
| States.Poll | 3-deliberative/src/template/State.java:110-116 | One step of the loop removes a least edge, adding it to the tree only when it joins two sets |
| States.Spanned | 3-deliberative/src/template/State.java:107-116 | When the edges run out, the tree links every two cities, repeats no edge, and has one edge fewer than the cities |
| States.PollTree | 3-deliberative/src/template/State.java:111-113 | Adding a least remaining edge to the tree keeps the tree in non-decreasing weight and drawn from the edges |
| States.PollConnect | 3-deliberative/src/template/State.java:112-114 | Relabelling the second endpoint's set as the first's keeps every polled edge inside one set |
| States.JoinLinks | 3-deliberative/src/template/State.java:111-114 | Adding an edge across two sets and merging them keeps each set linked by tree walks, every tree edge inside one set, and no edge repeated |
| States.PollSkip | 3-deliberative/src/template/State.java:110-116 | Polling a least edge whose ends share a set keeps the forest invariant |
| States.Unlinked | 3-deliberative/src/template/State.java:78-97 | With every city alone in its set, the empty tree links each set |
| States.LinkedTrans | 3-deliberative/src/template/State.java:111-114 | Two tree walks meeting at a city make one |
| States.Spanning | 3-deliberative/src/template/State.java:66-119 | Distinct distance-weighted edges between pending cities, sorted, linking every two pending cities and one fewer than them, witness the heuristic's cost |
| States.Span | 3-deliberative/src/template/State.java:107-116 | The cost is the weight of a spanning tree of input edges: no edge twice, taken in non-decreasing weight, linking every two cities, one edge fewer than the cities |
| States.ComputeH | 3-deliberative/src/template/State.java:66-119 | The cost is the weight of such a spanning tree over exactly the pending cities, and 0 when nothing is pending |
| States.State.constructor | 3-deliberative/src/template/State.java:25-34 | The fields are stored, the future cost is the heuristic over the given mappings, and the hash is built from the two mappings and the city |
| States.State.CompareTo | 3-deliberative/src/template/State.java:41-53 | -1, 0 or 1 exactly as distance plus future cost is below, equal to or above the other state's |
| States.State.DeliverTasks | 3-deliberative/src/template/State.java:125-143 | Nothing happens when the city has no list. It throws exactly when a listed task's destination is elsewhere. Otherwise it delivers every listed task in order, frees their weights and removes the city. Other keys never change |
| PlanBuilders.ChooseSound | 3-deliberative/src/template/PlanBuilder.java:86-88 | Every combination of a given size has that size and is a sub-list of the available tasks |
| PlanBuilders.ChooseCount | 3-deliberative/src/template/PlanBuilder.java:86-88 | There are binomial(n, size) combinations of a given size |
| PlanBuilders.CombinationsSound | 3-deliberative/src/template/PlanBuilder.java:86-88 | Every subset offered is non-empty and a sub-list of the available tasks |
| PlanBuilders.CombinationsCount | 3-deliberative/src/template/PlanBuilder.java:86-88 | The subsets offered number the sum of the binomials for sizes 1 to n |
| PlanBuilders.SubListMultiset | 3-deliberative/src/template/PlanBuilder.java:86-88 | A combination never holds a task more often than the available list |
| PlanBuilders.PowerSet | 3-deliberative/src/template/PlanBuilder.java:83-88 | The loop collects the combinations of every size from 1 to n |
| PlanBuilders.WeightOf | 3-deliberative/src/template/PlanBuilder.java:103-106 | The loop sums the subset's weights |
| PlanBuilders.PickUp | 3-deliberative/src/template/PlanBuilder.java:109-118 | Each task is appended to the plan as a pickup, removed from the pickup list and filed under its destination |
| PlanBuilders.TakenCount | 3-deliberative/src/template/PlanBuilder.java:115 | Removing a subset removes exactly it from the city's list, drops the city only when it is emptied, and leaves every other city alone |
| PlanBuilders.TakenSize | 3-deliberative/src/template/PlanBuilder.java:115 | Removing a subset lowers the pickup count by its size |
| PlanBuilders.FiledShape | 3-deliberative/src/template/PlanBuilder.java:116 | Filing the subset under its destinations keeps the delivery map well formed and raises its count by the subset's size |
| PlanBuilders.PickupRule | 3-deliberative/src/template/PlanBuilder.java:102-121 | A subset moves from the pickup map to the delivery map only when its weight fits the free space; either way the free space drops by the weight and the move adds the leg's distance |
| PlanBuilders.NoPickupOffered | 3-deliberative/src/template/PlanBuilder.java:125-131 | For every neighbour a successor with the same mappings and free space is generated |
| PlanBuilders.SuccessorsSound | 3-deliberative/src/template/PlanBuilder.java:79-133 | Every successor of a sound state is sound |
| PlanBuilders.EachSound | 3-deliberative/src/template/PlanBuilder.java:91-122 | Every pickup successor of a sound state is sound |
| PlanBuilders.AdmitRule | 3-deliberative/src/template/PlanBuilder.java:140-152 | A state is admitted exactly when its hash is new or its distance is strictly smaller; its record is at most its distance afterwards, no record grows, and other records do not change |
| PlanBuilders.OfferedLowers | 3-deliberative/src/template/PlanBuilder.java:140-152 | After offering a list of nodes, no record has grown, each node's record is at most its distance, and only offered nodes were admitted |
| PlanBuilders.MinPlan | 3-deliberative/src/template/PlanBuilderBFS.java:58-66 | None exactly for no plans; otherwise the first plan of least distance |
| PlanBuilders.PlanBuilder.constructor | 3-deliberative/src/template/PlanBuilder.java:32-38 | The frontier holds the start state alone: the vehicle's city, tasks grouped by pickup city, carried tasks by destination, capacity minus carried weight; nothing is visited |
| PlanBuilders.StartAccounts | 3-deliberative/src/template/PlanBuilder.java:32-38 | The start node accounts for every task: none picked up, all waiting, the carried ones on board |
| PlanBuilders.LoadedAccounts | 3-deliberative/src/template/PlanBuilder.java:111-117 | Tasks moved from waiting to picked up and on board keep every task accounted for |
| PlanBuilders.SuccessorAccounts | 3-deliberative/src/template/PlanBuilder.java:95-121 | The successor for a selection of waiting tasks still accounts for every task |
| PlanBuilders.EachAccounts | 3-deliberative/src/template/PlanBuilder.java:91-122 | The successors for all selections account for every task |
| PlanBuilders.SuccessorsAccounts | 3-deliberative/src/template/PlanBuilder.java:79-133 | Every successor of a sound node that accounts for every task does so too |
| PlanBuilders.DeliveredKeeps | 3-deliberative/src/template/State.java:125-143 | Delivering at a city empties its delivery list and keeps the city, the waiting tasks, soundness and the accounts |
| PlanBuilders.TerminalCompletes | 3-deliberative/src/template/PlanBuilder.java:60-63 | A node with nothing left to pick up or deliver and every task accounted for holds a complete plan |
| PlanBuilders.EndedTrail | 3-deliberative/src/template/PlanBuilder.java:48-63 | A trail of settled non-terminal nodes ended by a settled terminal node returns a complete plan |
| PlanBuilders.FinalPlansComplete | 3-deliberative/src/template/PlanBuilderBFS.java:38-52 | Every plan collected from nodes that account for every task is complete |
| PlanBuilders.TakenBag | 3-deliberative/src/template/PlanBuilder.java:115 | Removing a selection of a city's tasks files exactly those tasks fewer |
| PlanBuilders.FiledBag | 3-deliberative/src/template/PlanBuilder.java:116 | Filing tasks under their destinations files exactly those tasks more |
| PlanBuilders.PlanBuilder.AppendToQueue | 3-deliberative/src/template/PlanBuilder.java:140-152 | The visited map takes the admission rule's update, and the state joins the end of the frontier exactly when admitted |
| PlanBuilders.PlanBuilder.NewState | 3-deliberative/src/template/PlanBuilder.java:119-121 | The new state is fresh, holds exactly the node's plan, city, mappings and free space, and hashes to the node's key |
| PlanBuilders.PlanBuilder.Offer | 3-deliberative/src/template/PlanBuilder.java:121 | Offering one more node extends the frontier and the visited map as the admission rule says |
| PlanBuilders.PlanBuilder.OfferCombination | 3-deliberative/src/template/PlanBuilder.java:95-121 | The successor for one subset is offered |
| PlanBuilders.PlanBuilder.OfferCombinations | 3-deliberative/src/template/PlanBuilder.java:91-122 | The successors for all subsets are offered, in order |
| PlanBuilders.PlanBuilder.OfferNeighbour | 3-deliberative/src/template/PlanBuilder.java:81-131 | For one neighbour, the pickup successors and then the no-pickup successor are offered |
| PlanBuilders.PlanBuilder.PickupTasks | 3-deliberative/src/template/PlanBuilder.java:79-133 | All successors, for every neighbour in order, are offered through the admission rule: the new frontier is the old one followed by the admitted successors, each with a heuristic that bounds its remaining distance, and the visited map is the rule's; every frontier state stays sound |
| PlanBuilders.PlanBuilder.TakeAt | 3-deliberative/src/template/PlanBuilder.java:53-56 | The chosen state leaves the frontier and delivers what it can without throwing; it is the delivered node of that frontier entry, and the rest of the frontier keeps its order |
| PlanBuilders.PlanBuilder.Poll | 3-deliberative/src/template/PlanBuilder.java:53-56 | The state polled is the first frontier entry of least priority (distance plus heuristic); it leaves the frontier, the rest keeping its order, and after delivering it is settled |
| PlanBuilders.PlanBuilder.Visit | 3-deliberative/src/template/PlanBuilder.java:52-67 | One pass of the search loop: the frontier moves by one Iteration, polling the first least entry (A*) or the oldest one (BFS); the plan is returned exactly when the polled node is terminal, and otherwise its successors are offered |
| PlanBuilders.PlanBuilder.MinIndex | 3-deliberative/src/template/PlanBuilder.java:53 | The first state of least priority on the frontier |
| PlanBuilders.PlanBuilder.ASTARPlan | 3-deliberative/src/template/PlanBuilder.java:44-69 | The frontiers run from the starting one to the final one by Iterations, each polling the first entry of least priority; it throws only when the last frontier is empty; every polled state is settled and accounts for every task; a plan returned is the last polled state's, the only terminal one, and picks up every task once and delivers every task, picked up or carried, once |
| PlanBuilders.PlanBuilder.BFSPlan | 3-deliberative/src/template/PlanBuilderBFS.java:30-69 | The frontiers run from the starting one to the final one by Iterations, each polling the oldest entry, until the last frontier is empty; it throws exactly when no terminal plan was collected, and otherwise returns the first collected plan of least distance, which picks up every task once and delivers every task, picked up or carried, once |

## Left out

- Floating point: distances and costs are `nat` units; a cost per unit is a `nat` factor.
- Wall-clock time budgets (the `MARGIN`/duration loop guards and timeouts) become the length of a draw sequence or a `fuel` count.
- `Random`, `Collections.shuffle` and the probability schedule of the local search become arguments: an order, a draw per iteration, and a flag choosing the greedy branch.
- Path resolution (`pathTo`): a leg between two cities is one move step carrying the distance.
- The logist `Plan`, `Task`, `TaskSet` and `Vehicle` types are values; `CustomPlan` is not part of this model beyond a city, a step list and a distance.
- `Utils.combination` is not part of this model; `PlanBuilders.Choose` stands for it, listing the combinations of each size in the order that keeps the first task first.
- `getFinalPlan` of the auction agent and the console printing.
- The 4-centralized SLS draft, the bidding agents, the opponent model, the reactive and the rabbit simulation agents are not part of this model.
- Java object identity: actions are keyed by task and kind, so a task must not already be on a chain when it is added (`Sls.SLS.AddTask` requires it).
- State hashes: the hash is the pair of mappings and the city, so two different states never share a hash; string-hash collisions are not modelled.
- Aliasing of mappings: a state holds its mappings as values; the source clones them before each successor, so no sharing is lost.
- The priority queue's order among states of equal priority is unspecified in Java; the model polls the first least state.
- Sls.SLS.ChangeOneVehicle: states the intended effect (each task moved to the front beside its delivery, then re-placed); the source's pointer surgery at SLS.java:275-304 is not modelled.
- Sls.SLS.ChangingOrder and Sls.SLS.ChangingVehicles: assertions that fail on the source (`pickup2.pickup` before the null check) are not modelled.
- Sls.SLS.FindBestSolution: the probability schedule becomes a drawn greedy flag per round and the time budget a finite list of draws; the walk and its first cheapest fleet are stated on chains (`SlsState.Walk`, `SlsState.Search`), not on the solution objects.
- States.ComputeH: the tree is proved spanning (no edge twice, every two pending cities linked, one edge fewer than them, edges taken in non-decreasing weight); that no spanning tree weighs less is not proved.
- PlanBuilders.PickupRule: no claim that the successor's free space stays non-negative, because a rejected subset's weight is still subtracted.
- PlanBuilders.PlanBuilder.ASTARPlan: runs at most `fuel` polls; the polled states and the frontiers are ghost; the plan found is proved complete, but nothing is claimed about its optimality.
- PlanBuilders.PlanBuilder.BFSPlan: runs at most `fuel` polls; the polled states and the frontiers are ghost.
- Sls.SLS.PickFirst, Sls.SLS.PickAfter, Sls.SLS.PlacePick, Sls.SLS.DropAfter, Sls.SLS.AddDrop, Sls.SLS.DropRow, Sls.SLS.OrderRow, Sls.SLS.AddRow, Sls.SLS.OrderRows, Sls.SLS.ChangingOrder: follow the corrected free-space bookkeeping of changingOrder, not SLS.java:349-359 as written (see "## Findings" row 1, whose as-written loop is `Moves.ReorderingsAsWritten`); Sls.SLS.FrontOrders, Sls.SLS.ChangeOneVehicle, Sls.SLS.CandidatesFor, Sls.SLS.CandidatesOf and Sls.SLS.ChooseNeighbors inherit it.
- Sls.SLS.Bootstrap, Sls.SLS.NewPotential, Sls.SLS.Build, Sls.SLS.AddTask: take the bootstrap branch when no task is carried, not when the cost is 0 as SLS.java:107 tests (see "## Findings" row 2).
- PlanBuilderBFS and PlanBuilder share one class: their successor generation and admission rule are the same, and they differ only in the polling order and the final choice.

## Findings

| source | as written | input that shows it | evidently intended | confidence | as-written member | corrected member |
|---|---|---|---|---|---|---|
| 5-auction/src/template/SLS.java:344-369 | The running free space adds the pickup's change a second time in the inner loop, and the first action of the rest is never added, so delivery positions are accepted past the capacity. Since `aux` has already advanced when a later row starts, the pickup is also never placed right after the rest's first action, so feasible neighbours are missed | capacity 10, chain [P(t,1), D(t), P0(8), P1(2), D0, D1]: the neighbour [P0, P1, P(t), D(t), D0, D1] is emitted with free space −1 after P(t), and the feasible [P0, P(t), D(t), P1, D0, D1] is never emitted | emit exactly the placements of the first task whose every prefix fits the capacity | not executed | Moves.AsWrittenOverCapacity, Moves.AsWrittenMissesPlacement | Moves.ReorderingsFeasible, Moves.ReorderingsComplete |
| 5-auction/src/template/SLS.java:107 | The bootstrap branch is taken whenever the potential solution costs 0, which also happens when tasks are carried at zero distance | one vehicle at city 0 carrying a task from city 0 to city 0; a new task arrives: the solution is rebuilt with the new task alone, dropping the carried one | take the bootstrap branch only when no task is carried | not executed | SlsState.BootstrapAsWrittenDropsTask | Sls.SLS.NewPotential |
