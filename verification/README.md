# A verified model of the TeamC programs

TeamC is a collection of C programs: solutions of small optimisation problems, exercises with
linked lists, trees and threads, and a chat server. This project models those whose correctness
takes an argument, in the form the C code has (loops over arrays and linked nodes, protocols as
steps of threads, tables changed by handlers), and proves what they promise for every input or
every run.

| file | what it models |
|---|---|
| `Homework.dfy` | scheduling jobs with deadlines, least total penalty (`Solution/liuting/18.c`) |
| `ThreadPool.dfy`, `TaskQueue.dfy` | the thread pool, any number of workers and callers, and its queue |
| `FileList.dfy` | the bubble sort of `lt_ls.c` that relinks list nodes |
| `Backtracking.dfy` | printing all permutations with shared arrays |
| `MergeThrees.dfy` | four programs for merging numbers into multiples of 3 |
| `OfflineMessages.dfy` | the chat server's list of messages for absent accounts |
| `Groups.dfy` | the chat server's group tables and the handlers that change them |
| `TwoEnds.dfy` | taking increasing numbers from both ends of a row |
| `CoinPackets.dfy` | two programs for the least number of coin packets |
| `Divide.dfy` | three programs for the steps n/2, 2n/3, 4n/5 |
| `Trade.dfy` | fractional trade on a budget, over the reals |
| `Programmes.dfy` | bubble sort and greedy choice of programmes |
| `BiTree.dfy` | reading a tree from its preorder with blanks, and its traversals |
| `Philosophers.dfy` | dining philosophers who back off, a ring of any size |
| `Workload.dfy` | two binary searches over v + v/k + v/k^2 + ... |
| `Permutations.dfy`, `Counting.dfy` | permutations, sums, set sizes, and a stand-in for `qsort` |
| `LinkedNodes.dfy`, `Wrappers.dfy` | the nodes of the three linked lists, and optional values |

`dafny verify dfyconfig.toml` checks everything.

Inputs read with `scanf` are parameters, output is returned or kept in a field. `qsort` is an
insertion sort that also reports, as a ghost value, the permutation it applied; callers use only
that the result is sorted and a rearrangement. What `malloc` leaves in fresh memory is a parameter.

Where the code falls short of what it aims at, the exact behaviour is stated:

- `18.c` clears cell 0 when the latest day any job can use has only worthless jobs. For all other
  inputs, whatever their scores and deadlines, it prints the optimum; in that case it prints the
  optimum with one job of the earliest deadline forgiven. This is the true optimum if and only if
  that job's score is 0, or it is positive and, for every day d, no more jobs with a positive
  score are due by d than there are days from 1 to d (`WaivedOptimum`). `IdleTopFails` is an input
  where it is too little.
- `17.c` leaves out its last item when the budget outlasts the items. With a budget of at least 0
  the printed amount is the optimum if and only if there is no money left over or some item gives
  nothing; `MoneyLeftFails` is an input where it is short.
- `week1J.c` prints a longest legal game if and only if the row is clean (`LongestIffClean`): the
  loop never meets two equal ends, both larger than the number last taken, with a larger neighbour
  behind one of them; nor an end equal to that number while the other end can be taken; nor a left
  end equal to it above a right end that is too small. Rows of distinct positive numbers are clean.
  On other rows it can stop early or even print an illegal game (`RepeatsFail`).
- `2_J.c` prints the size of a largest timetable if and only if its loop never picks a programme
  that takes no time ahead of one that takes some, ends with it, and begins no earlier than the
  last end before (`GreedyIsLargest`, for programmes that do not end before they start); it falls
  short by the number of such picks (`LargestSize`, `NoTimeFails`).
- `week1H.c` prints 1 for 0 coins where `1_H.c` prints 0, the least number there.
- `1.c` compares with 10^18 in floating point, so it also answers 10^18 + 1 to 10^18 + 64.
- The philosophers cannot deadlock, but they can go round in a cycle without anybody eating. From a
  reachable state exactly the philosophers of a set can do so, the others standing still, if and
  only if nobody is eating, for each of them the next one is in the set too or has stopped with its
  left chopstick in hand, and neither it nor the one before it has a right chopstick still to put
  back (`LivelockExact`). So if those who stand still hold nothing, it takes the whole ring: in a
  cycle with even one philosopher sitting out empty-handed, somebody eats (`LivelockTakesAll`).

## Model

| member | source | states |
|---|---|---|
| Homework.LeastPenalty | Solution/liuting/18.c:39-69 | for every list of jobs the printed sum is the least total score of undone jobs over all assignments of distinct days within the deadlines; when the last usable day is idle, it is that of the jobs with one earliest job forgiven, and then it is the true least exactly when forgiving that job is harmless |
| Homework.WaivedOptimum | Solution/liuting/18.c:55-60 | forgiving a job of the earliest deadline leaves the least penalty what it was if and only if its score is 0, or positive with no more positive jobs due by any day than there are days |
| Homework.TakeOver | Solution/liuting/18.c:55-60 | a positive job left undone could take the day of the forgiven earliest job, which would cost less |
| Homework.PlanFits | Solution/liuting/18.c:42-61 | if all jobs with a positive score can be done, no more of them are due by any day than there are days |
| Homework.FitPlan | Solution/liuting/18.c:42-61 | conversely, if that count fits for every day, doing them in the order they are due does them all in time |
| Homework.DayScan | Solution/liuting/18.c:41-61 | the scan whose counter is raised in its own body terminates and fills every day greedily, zeroing exactly the scores of the jobs it does |
| Homework.TotalScore | Solution/liuting/18.c:62-68 | the sum of the scores that are left |
| Homework.Compress | Solution/liuting/18.c:42 | no plan needs more days than there are jobs (pigeonhole), so starting the scan at day T loses nothing |
| Homework.TakeDay | Solution/liuting/18.c:46-57 | trading days with, or displacing, a job worth no more never costs anything |
| Homework.Exchange | Solution/liuting/18.c:44-60 | a competitor agreeing with the greedy plan above a day can be made to agree on that day at no extra cost |
| Homework.GreedyIsOptimal | Solution/liuting/18.c:42-61 | no feasible plan costs less than a plan filled greedily from the last day down |
| Homework.OptimumSurvivesSorting | Solution/liuting/18.c:39 | the optimum of the sorted jobs is the optimum of the jobs as entered |
| Homework.ClearStep | Solution/liuting/18.c:55-60 | the clearing at the end of a day's scan fills that day greedily and keeps the days above |
| Homework.FirstClear | Solution/liuting/18.c:44-57 | at the first clearing the scan has found no candidate exactly when the last usable day is idle |
| Homework.IdleTopFails | Solution/liuting/18.c:55-57 | an input on which the idle last day makes the program print 0 where the least penalty is 4 |
| TaskQueue.Queue.constructor | Code/liuting1/lt_thread_pool/queue.c:25-33 | an empty queue: a dummy node that is both head and end |
| TaskQueue.Queue.Push | Code/liuting1/lt_thread_pool/queue.c:54-62 | appends to the represented sequence; `end` is the last node, `size` the length |
| TaskQueue.Queue.Pop | Code/liuting1/lt_thread_pool/queue.c:63-77 | takes the front of the represented sequence off, `end` going back to the dummy when the queue empties |
| TaskQueue.Queue.Size | Code/liuting1/lt_thread_pool/queue.c:78-81 | the length of the represented sequence |
| ThreadPool.NoLostWakeup | Code/liuting1/lt_thread_pool/thread_pool.c:57-106 | in every reachable state with all workers asleep, the queue is no longer than the number of callers between their push and their signal |
| ThreadPool.TasksConserved | Code/liuting1/lt_thread_pool/thread_pool.c:73-78 | in every reachable state tasks have been popped in push order, each once; nothing was popped from an empty queue; pushed = queued + held by workers + finished, and called for = with the caller + pushed, task by task |
| ThreadPool.MutualExclusion | Code/liuting1/lt_thread_pool/thread_pool.c:62-74 | at most one thread is inside the critical sections |
| ThreadPool.BoundedWork | Code/liuting1/lt_thread_pool/thread_pool.c:57-106 | the steps the pool takes by itself are bounded by a linear function of the calls and spurious wakeups |
| ThreadPool.NothingLeftBehind | Code/liuting1/lt_thread_pool/thread_pool.c:57-106 | when only new calls and spurious wakeups can happen, the queue is empty and the finished tasks are those of the calls, each as often as it was called for |
| ThreadPool.PushedAsCalled | Code/liuting1/lt_thread_pool/thread_pool.c:97-106 | in every run, what has been pushed and what callers are about to push are the tasks of the calls, task by task |
| ThreadPool.AnyTasksGetDone | Code/liuting1/lt_thread_pool/thread_pool.c:57-106 | with at least one worker and one caller, any list of tasks can be called for, and the pool comes to rest having finished exactly those |
| ThreadPool.SpuriousIsHarmless | Code/liuting1/lt_thread_pool/thread_pool.c:63-67 | at rest, a worker woken without a signal takes the mutex, sleeps again, and leaves the state as it was |
| ThreadPool.StepInv | Code/liuting1/lt_thread_pool/thread_pool.c:57-106 | every step of every worker and caller keeps mutual exclusion, signal coverage, FIFO order and the accounting of tasks |
| ThreadPool.CoveredWorker | Code/liuting1/lt_thread_pool/thread_pool.c:63-73 | a worker's step keeps: while anyone sleeps, queued tasks are at most signals owed plus workers awake |
| ThreadPool.CoveredPusher | Code/liuting1/lt_thread_pool/thread_pool.c:102-105 | a caller's step keeps the same |
| ThreadPool.PoppingWorker | Code/liuting1/lt_thread_pool/thread_pool.c:63-73 | nobody empties the queue between a worker's test and its pop |
| ThreadPool.MeasureStep | Code/liuting1/lt_thread_pool/thread_pool.c:57-106 | each of the pool's own steps uses up work; a call brings 12 units and a spurious wakeup 2 |
| ThreadPool.WorkerTakes | Code/liuting1/lt_thread_pool/thread_pool.c:60-67 | with the mutex free and a task waiting, a worker checks, locks, tests, and holds the mutex with the queue untouched |
| ThreadPool.WorkerRuns | Code/liuting1/lt_thread_pool/thread_pool.c:73-79 | it pops the first task, unlocks, finishes that task, and is back at the head of the loop |
| ThreadPool.CallPushes | Code/liuting1/lt_thread_pool/thread_pool.c:99-103 | a call locks and puts its own task last in the queue |
| ThreadPool.CallSignals | Code/liuting1/lt_thread_pool/thread_pool.c:104-105 | it then unlocks, wakes whichever sleeping worker the signal picks, and is done |
| ThreadPool.CreatedInOrder | Code/liuting1/lt_thread_pool/thread_pool.c:90-93 | in every run workers come into being in the order of their numbers |
| FileList.Sort | Code/liuting1/lt_ls.c:184-204 | the same nodes end up linked in non-decreasing name order (the beginning of a name before the name, else by the first character that differs), acyclic and null-terminated, equal names in their old order |
| FileList.Pass | Code/liuting1/lt_ls.c:189-203 | one pass moves the largest remaining name to the end of the unsorted part and returns that node |
| FileList.SwapBehind | Code/liuting1/lt_ls.c:194-198 | three link assignments exchange two neighbouring nodes of the list |
| FileList.PassSwap | Code/liuting1/lt_ls.c:192-198 | exchanging neighbours strictly out of order carries the largest name forward and keeps equal names in order |
| FileList.SortedAndStable | Code/liuting1/lt_ls.c:186-204 | the state in which the outer loop stops is fully sorted with ties in their old order |
| FileList.StrLeExact | Code/liuting1/lt_ls.c:192 | the comparison lets `a` stand before `b` if and only if `a` begins `b` or has the smaller character where they first differ |
| FileList.StrLeTotal | Code/liuting1/lt_ls.c:192 | the `strcmp` order is total and antisymmetric |
| FileList.StrLeTransitive | Code/liuting1/lt_ls.c:192 | the `strcmp` order is transitive |
| Backtracking.Search.PrintAll | Code/wuxinyue/dfs.c:29-34 | from a cleared `book`, exactly the permutations of 1..n are printed, in strictly increasing lexicographic order, and `book` is left as it was |
| Backtracking.Search.Dfs | Code/wuxinyue/dfs.c:5-28 | prints, in order, the permutations that begin with the places already filled, and restores `book` and those places |
| Backtracking.Search.Place | Code/wuxinyue/dfs.c:21-24 | the same for one more place, the mark being taken back |
| Backtracking.AllPermutationsOnce | Code/wuxinyue/dfs.c:5-28 | the search's sequence holds every permutation exactly once and nothing else, in order |
| Backtracking.ExtensionsExact | Code/wuxinyue/dfs.c:17-26 | a sequence is met from a prefix if and only if it is a permutation beginning with it |
| Backtracking.ExtensionsSorted | Code/wuxinyue/dfs.c:17-26 | what is met from a prefix comes in strictly increasing order |
| MergeThrees.ClosedForm | Solution/huqingwei/week1/1_B.c:23-42 | the printed number is the largest number of multiples of 3 any sequence of merges can end with |
| MergeThrees.BranchForm | Solution/liuting/hehanshu.c:25-63 | the same number, and the array ends reduced as the program leaves it |
| MergeThrees.ThreeCases | Solution/wuxinyue/week1B.c:14-43 | the same number |
| MergeThrees.SwapForm | Solution/wuxinyue/week1b.c:8-17 | the same number |
| MergeThrees.AllFour | Solution/huqingwei/week1/1_B.c:23-42 | the four programs print the same number for every input |
| MergeThrees.TallyRemainders | Solution/wuxinyue/week1b.c:10-13 | the cells count the remainders of the numbers read |
| MergeThrees.NoRunDoesBetter | Solution/huqingwei/week1/1_B.c:39-40 | no sequence of merges ends with more multiples of 3 than the formula |
| MergeThrees.SomeRunAttains | Solution/huqingwei/week1/1_B.c:39-40 | some sequence of merges ends with exactly that many |
| MergeThrees.MergeBound | Solution/huqingwei/week1/1_B.c:39-40 | no single merge raises the formula |
| MergeThrees.KeepPromise | Solution/huqingwei/week1/1_B.c:39-40 | while the formula exceeds the multiples there are, some merge leaves it unchanged |
| MergeThrees.MergeExact | Solution/huqingwei/week1/1_B.c:39-40 | a merge takes two numbers away and adds their sum |
| MergeThrees.RunKeepsTotal | Solution/huqingwei/week1/1_B.c:39-40 | a run keeps the sum of all numbers, and each merge leaves one number fewer |
| OfflineMessages.Serve | Code/liuting1/chatroom/server_deal.c:638-702 | over every interleaving of queued messages and logins, for each account the messages queued are those sent, in order, followed by those pending; every message to an account is among those sent by the end of its next login, and every message sent was brought by an earlier event for the account logging in |
| OfflineMessages.DeliverOne | Code/liuting1/chatroom/server_deal.c:683-700 | one more event keeps: by the end of every login, all messages queued for its account had been sent |
| OfflineMessages.StoredIsFrom | Code/liuting1/chatroom/server_deal.c:645-673 | every event but a login stores one message: all of it, or from a friend its kind, accounts and text |
| OfflineMessages.ForExact | Code/liuting1/chatroom/server_deal.c:683-693 | what an account is sent are the messages addressed to it, each as often as it was queued |
| OfflineMessages.NothingForgotten | Code/liuting1/chatroom/server_deal.c:638-702 | a message an event brings for an account is among those sent by the end of any later login of that account |
| OfflineMessages.SentWasBrought | Code/liuting1/chatroom/server_deal.c:683-700 | a message sent at a login is for that account and is one that an earlier event brought |
| OfflineMessages.OfflineList.DealGroupOff | Code/liuting1/chatroom/server_deal.c:638-656 | appends the whole message, `pend` staying the last node |
| OfflineMessages.OfflineList.DealFriOff | Code/liuting1/chatroom/server_deal.c:657-675 | appends the message with the sender's name and second text left as the memory held them |
| OfflineMessages.OfflineList.ProOff | Code/liuting1/chatroom/server_deal.c:676-702 | sends exactly the account's messages in order and leaves exactly the others in order, `pend` being the last node |
| OfflineMessages.Prune | Code/liuting1/chatroom/server_deal.c:681-701 | the walk that unlinks selected nodes in place keeps a proper list and ends at its last node |
| OfflineMessages.LoginAccounted | Code/liuting1/chatroom/server_deal.c:683-700 | a login keeps every account's queued = sent + pending |
| OfflineMessages.PruneKeeps | Code/liuting1/chatroom/server_deal.c:685-699 | pruning one account leaves every other account's messages and none of its own |
| Groups.TablesSound | Code/liuting1/chatroom/server_deal.c:302-624 | after any requests every member row names an existing group and no (group, member) pair occurs twice |
| Groups.TableMirrorsHistory | Code/liuting1/chatroom/MYSQL.c:379-528 | after any requests a member row exists, with its flag, exactly when the last event about the pair says so |
| Groups.FlagOneIsCreator | Code/liuting1/chatroom/MYSQL.c:398 | flag 1 is carried only by the group's creator |
| Groups.FlagTwoIsGranted | Code/liuting1/chatroom/MYSQL.c:648-656 | every flag-2 row was granted by the group's owner after the row was last inserted |
| Groups.EverythingAuthorised | Code/liuting1/chatroom/server_deal.c:302-624 | every change ever made was in order when made: rows inserted once, by the account itself or by a member, in an existing group; promotions and deletions by the owner; removals by the account itself or by somebody carrying a flag; the table of groups is what the history makes it |
| Groups.KicksAuthorised | Code/liuting1/chatroom/server_deal.c:600-624 | whoever removed somebody else had created the group or been promoted in it by its creator before |
| Groups.ServeAll | Code/liuting1/chatroom/server_deal.c:302-624 | the handlers, fed any requests, reach a state with the proved invariant and answer each as the tables then stood |
| Groups.Server.DealCreatGroup | Code/liuting1/chatroom/server_deal.c:302-316 | a new group under the next id, its creator's row with flag 1, and that id in the reply |
| Groups.NewIdIsFresh | Code/liuting1/chatroom/server_deal.c:305-308 | the id sent back for a new group is not that of any group or row so far, and no later request is answered with it again |
| Groups.Server.DealJoinGroup | Code/liuting1/chatroom/server_deal.c:318-344 | inserts a flag-0 row only for an existing group and a non-member |
| Groups.Server.DealQuitGroup | Code/liuting1/chatroom/server_deal.c:346-365 | deletes the member's row, if there is one |
| Groups.Server.DealDeleGroup | Code/liuting1/chatroom/server_deal.c:367-386 | the owner, and nobody else, deletes the group with all its rows |
| Groups.Server.DealSetUp | Code/liuting1/chatroom/server_deal.c:543-564 | the owner, and nobody else, gives a member flag 2 |
| Groups.Server.DealJoinUser | Code/liuting1/chatroom/server_deal.c:566-598 | a member brings in a non-member with flag 0 |
| Groups.Server.DealDeleUser | Code/liuting1/chatroom/server_deal.c:600-624 | an account with a flag other than 0 in the group removes the named account's row |
| Groups.CreateExact | Code/liuting1/chatroom/server_deal.c:302-316 | the new group belongs to the creator, who has a row with flag 1; every other row and owner is as before |
| Groups.JoinExact | Code/liuting1/chatroom/server_deal.c:318-344 | an account without a row in an existing group gets one with flag 0; every other row is as before |
| Groups.QuitExact | Code/liuting1/chatroom/server_deal.c:346-365 | the account has no row in the group any more; every other row is as before |
| Groups.DeleteExact | Code/liuting1/chatroom/server_deal.c:367-386 | a group deleted by its owner has neither owner nor rows; every other group is as before |
| Groups.PromoteExact | Code/liuting1/chatroom/server_deal.c:543-564 | a member named by the owner carries flag 2; every other row is as before |
| Groups.InviteExact | Code/liuting1/chatroom/server_deal.c:566-598 | an account without a row that a member names gets one with flag 0; every other row is as before |
| Groups.KickExact | Code/liuting1/chatroom/server_deal.c:600-624 | the account named by one with a flag has no row any more; every other row, that of the one who asked included, is as before |
| Groups.LoggedAsAsked | Code/liuting1/chatroom/server_deal.c:302-624 | a request that changes anything is on record once, as what it is, under who asked and whom it is about |
| Groups.RepliesTellEffects | Code/liuting1/chatroom/server_deal.c:302-624 | success is replied exactly when the request is carried out; a refusal changes nothing and gives a true reason |
| Groups.MirrorsAt | Code/liuting1/chatroom/MYSQL.c:379-528 | each statement changes the row of any pair exactly as its event says |
| Groups.WithoutMemberKeeps | Code/liuting1/chatroom/MYSQL.c:478 | the delete removes the pair's rows and no others, and makes no duplicates |
| Groups.RowsStep | Code/liuting1/chatroom/server_deal.c:302-624 | every request keeps rows unique and attached to existing groups |
| TwoEnds.Play | Solution/wuxinyue/week1J.c:17-43 | the printed string is a longest legal game if and only if the row is clean, and so always on pairwise distinct positive numbers; on a clean row it is the first in the dictionary among the longest games |
| TwoEnds.PrintedIsLongest | Solution/wuxinyue/week1J.c:20-42 | on pairwise distinct positive numbers the string is legal and no legal string is longer |
| TwoEnds.LongestIffClean | Solution/wuxinyue/week1J.c:17-43 | from any window of any row of integers, what the two tests print is a longest legal game if and only if the window is clean |
| TwoEnds.PrintedIsFirst | Solution/wuxinyue/week1J.c:17-43 | from any clean window, no longest legal game comes before the printed one in the dictionary |
| TwoEnds.LeftIsBest | Solution/wuxinyue/week1J.c:22-28 | when the left end can be taken and the right one is larger or too small, taking it is a longest game exactly when what follows is one |
| TwoEnds.RightIsBest | Solution/wuxinyue/week1J.c:30-38 | the same for the right end |
| TwoEnds.TieIsBest | Solution/wuxinyue/week1J.c:22-28 | of two equal ends that can be taken, one move is all there is exactly when neither neighbour is larger |
| TwoEnds.DropLeft | Solution/wuxinyue/week1J.c:22 | an end that is already too small can be dropped without losing a move |
| TwoEnds.RepeatsFail | Solution/wuxinyue/week1J.c:22-41 | a row where the program stops after one move and three are legal, and one where it prints an illegal game |
| CoinPackets.CountHalvings | Solution/huqingwei/week1/1_H.c:11-16 | the number of halvings is the least number of positive packets summing to n that pay every amount up to n |
| CoinPackets.FirstPower | Solution/wuxinyue/week1H.c:7-20 | the nested loops print the same least number for n at least 1, and 1 below, which for 0 coins is not the least |
| CoinPackets.Both | Solution/wuxinyue/week1H.c:7-20 | the two programs print the same for every n of at least 1 |
| CoinPackets.BitsIsLeast | Solution/huqingwei/week1/1_H.c:11-14 | that number of packets suffices and fewer do not |
| CoinPackets.FewPacketsFail | Solution/huqingwei/week1/1_H.c:11-14 | k packets that pay every amount up to n have n below 2^k |
| CoinPackets.HalvesPay | Solution/huqingwei/week1/1_H.c:13 | the packets made by halving pay every amount |
| Divide.Confluence | Solution/huqingwei/week1/1_A.c:22-32 | all maximal runs of the three steps from n end at the same number after equally many steps |
| Divide.RunLength | Solution/huqingwei/week1/1_A.c:22-32 | for n = 2^a 3^b 5^c m every maximal run takes a + 2b + 3c steps and ends at m |
| Divide.TwoThreeFive | Solution/huqingwei/week1/1_A.c:18-38 | prints the length of the runs that reach 1, or -1 if none does, never leaving the range of `long long` |
| Divide.ThreeFiveTwo | Solution/liuting/1.c:22-51 | the same, preferring 3, then 5, then 2 |
| Divide.GuardedFun | Solution/liuting/1.c:13-20 | prints that for 1 up to 10^18 + 64 and nothing otherwise |
| Divide.GuardRounds | Solution/liuting/1.c:16 | of the positive `long long` values, exactly those up to 10^18 + 64 are at most 10^18 once rounded to `double` |
| Divide.FiveThreeTwo | Solution/wuxinyue/week1A.c:8-51 | the same, preferring 5, then 3, then 2, and -1 below 1; exactly one line is printed |
| Divide.StepWeight | Solution/huqingwei/week1/1_A.c:24-29 | every step, whichever it is, takes one off the weight and keeps the part free of 2, 3 and 5 |
| Divide.Step | Solution/huqingwei/week1/1_A.c:23-31 | where a step applies it gives exactly half, two thirds or four fifths of the number |
| Divide.AllThree | Solution/huqingwei/week1/1_A.c:18-38 | for every n from 1 to 10^18 the three programs print the same |
| Trade.MostGain | Solution/liuting/17.c:36-58 | with positive costs, gains and a budget of at least 0, the printed amount is the largest gain of any affordable fractional choice if and only if no money is left over or some item gives nothing |
| Trade.Enter | Solution/liuting/17.c:40-43 | a room has the gain and the cost read for it, and their ratio |
| Trade.Spend | Solution/liuting/17.c:46-58 | the same for items already sorted by falling ratio; with no items the variable printed is left as it was |
| Trade.FirstRoomsBest | Solution/liuting/17.c:44-56 | spending the whole budget by falling ratio cannot be beaten |
| Trade.BreakIsOptimal | Solution/liuting/17.c:52-55 | stopping inside an item with the budget spent is optimal |
| Trade.LeftOutLast | Solution/liuting/17.c:46-58 | when the budget outlasts the items, leaving out the last is right if and only if some item gives nothing |
| Trade.MoneyLeftFails | Solution/liuting/17.c:46-58 | an item that gives 1 for 1 and a budget of 2: the loop ends with 0, and the optimum is 1 |
| Trade.OptimumSurvivesSorting | Solution/liuting/17.c:44 | sorting the items does not change the optimum |
| Programmes.MostProgrammes | Solution/huqingwei/week2/2_J.c:21-41 | unless a programme ends before it starts, the printed number falls short of a largest set without overlaps (touching ends allowed) by exactly what the loop misses on the sorted list; it is the largest if and only if nothing is missed, and always when every programme takes some time |
| Programmes.BubbleSort | Solution/huqingwei/week2/2_J.c:22-30 | the array ends sorted by end, with the same programmes, those that end together in their old order |
| Programmes.Select | Solution/huqingwei/week2/2_J.c:32-39 | the loop's count in terms of the recursion `LargestSize` is about |
| Programmes.LargestSize | Solution/huqingwei/week2/2_J.c:32-39 | a largest timetable has as many programmes as the loop picks, and one more for each pick that takes no time and spoils a programme ending with it |
| Programmes.GreedyIsLargest | Solution/huqingwei/week2/2_J.c:32-39 | the greedy count over programmes sorted by end is that of a largest timetable if and only if no pick spoils a later programme |
| Programmes.ChooseNext | Solution/huqingwei/week2/2_J.c:34-39 | one turn of the loop keeps a timetable that also has the programmes missed, and as many cuts and points that no larger timetable can get round |
| Programmes.MissedIsMisses | Solution/huqingwei/week2/2_J.c:34-39 | the programmes that come too late are counted by the picks that spoil them |
| Programmes.NoMoreThanCuts | Solution/huqingwei/week2/2_J.c:34-39 | programmes that do not overlap number no more than the moments that hit or split those that take some time, and the programmes that take none |
| Programmes.NoTimeFails | Solution/huqingwei/week2/2_J.c:35 | a list where a programme that takes no time makes the greedy count one too small |
| BiTree.CreateBiTree | Code/huqingwei/shujujiegou/BiTree.c:11-23 | builds, from fresh nodes, the tree the front of the input describes and consumes exactly its description |
| BiTree.ParseSerialized | Code/huqingwei/shujujiegou/BiTree.c:11-23 | reading undoes writing and leaves the rest of the input |
| BiTree.SerializeParsed | Code/huqingwei/shujujiegou/BiTree.c:11-23 | writing undoes reading: what was consumed describes what was built |
| BiTree.DescriptionsPrefixFree | Code/huqingwei/shujujiegou/BiTree.c:15-22 | no tree's description is the beginning of another's |
| BiTree.PreAndInDetermine | Code/huqingwei/shujujiegou/BiTree.c:25-39 | the first two printed lines determine a tree with distinct items |
| BiTree.PreAndInDetermineExactly | Code/huqingwei/shujujiegou/BiTree.c:25-39 | the first two printed lines determine any tree if and only if there is one way to read them, counted over the places of the root in the second line |
| BiTree.TwoTrees | Code/huqingwei/shujujiegou/BiTree.c:25-39 | two lines that can be read in two ways are printed by two different trees |
| BiTree.TreesAreWays | Code/huqingwei/shujujiegou/BiTree.c:25-39 | two different trees that print the same two lines are two ways to read them |
| BiTree.RepeatedItemsFail | Code/huqingwei/shujujiegou/BiTree.c:25-39 | with a repeated item they need not |
| BiTree.InOrderTraverse | Code/huqingwei/shujujiegou/BiTree.c:25-31 | prints the preorder, whatever its name says |
| BiTree.Zhongxu | Code/huqingwei/shujujiegou/BiTree.c:33-39 | prints the inorder |
| BiTree.Houxu | Code/huqingwei/shujujiegou/BiTree.c:41-47 | prints the postorder |
| BiTree.PostorderMirrors | Code/huqingwei/shujujiegou/BiTree.c:41-47 | the postorder is the preorder of the mirrored tree, read backwards |
| BiTree.InorderMirrors | Code/huqingwei/shujujiegou/BiTree.c:33-39 | the inorder of the mirrored tree is the inorder, read backwards |
| BiTree.PreorderIsText | Code/huqingwei/shujujiegou/BiTree.c:11-31 | the preorder is the description without its blanks |
| BiTree.ThreeLines | Code/huqingwei/shujujiegou/BiTree.c:11-47 | the three lines for a root with two children |
| BiTree.ReadAndPrint | Code/huqingwei/shujujiegou/BiTree.c:49-62 | on the description of a tree, followed by anything, the three lines are its traversals |
| Philosophers.OneHolder | Code/huqingwei/test/zhexuejia.c:44-64 | in every reachable state of every ring no chopstick has two holders |
| Philosophers.HalfEat | Code/huqingwei/test/zhexuejia.c:50-61 | at most half of the philosophers, rounded down, eat at once |
| Philosophers.NoDeadlock | Code/huqingwei/test/zhexuejia.c:47-53 | whoever waits, waits for another philosopher who can act |
| Philosophers.EveryoneCanEat | Code/huqingwei/test/zhexuejia.c:44-64 | from every reachable state every philosopher can still come to eat |
| Philosophers.LivelockExact | Code/huqingwei/test/zhexuejia.c:44-64 | from any reachable state, exactly the philosophers of a set can act in a cycle in which nobody eats, if and only if each of them spins: its right chopstick stays taken and its left one can be had |
| Philosophers.LivelockTakesAll | Code/huqingwei/test/zhexuejia.c:44-64 | with those who do not act holding nothing, such a cycle exists if and only if all philosophers act |
| Philosophers.SpinForEver | Code/huqingwei/test/zhexuejia.c:47-53 | from any such state there is a schedule that brings the table back without a meal |
| Philosophers.RightIsFree | Code/huqingwei/test/zhexuejia.c:50 | next to one who has stopped without its left chopstick, each act without a meal uses up one of at most two |
| Philosophers.LeftStaysTaken | Code/huqingwei/test/zhexuejia.c:47 | after one who has stopped with its right chopstick in hand, nobody starts |
| Philosophers.Livelock | Code/huqingwei/test/zhexuejia.c:47-53 | in every ring all can act in a cycle in which nobody eats |
| Philosophers.ActInv | Code/huqingwei/test/zhexuejia.c:44-64 | every action keeps lock owners and what philosophers hold in agreement |
| Philosophers.MealTurn | Code/huqingwei/test/zhexuejia.c:47-61 | with both chopsticks free a turn of the loop takes the left one, then the right one, eats, puts the left one back first, and leaves the table as it was |
| Philosophers.BackOffTurn | Code/huqingwei/test/zhexuejia.c:47-53 | with the right one taken a turn takes the left one, finds out, puts it back, and leaves the table as it was |
| Philosophers.GetIsRing | Code/huqingwei/test/zhexuejia.c:14-37 | the five philosophers A to E form such a ring |
| Workload.LeastByWancheng | Solution/huqingwei/week1/1_G.c:13-26 | for n of at least 1 the search prints the least v whose sum reaches n |
| Workload.LeastByArea | Solution/wuxinyue/week1G.c:21-36 | for every k of at least 1 the other search prints the same least v for c of at least 1, and 1 for c = 0; below 0 it prints from variables it never set |
| Workload.Wancheng | Solution/huqingwei/week1/1_G.c:31-45 | repeated division decides whether the sum of v divided by the powers of k reaches n |
| Workload.Area | Solution/wuxinyue/week1G.c:3-16 | growing powers with an early stop decide the same, and the loop ends for k = 1 as well |
| Workload.NextTerm | Solution/huqingwei/week1/1_G.c:37-40 | dividing again by k is dividing by the next power of k |
| Workload.ReachesMonotone | Solution/huqingwei/week1/1_G.c:16-24 | the test is monotone in v, which the binary search relies on |
| Workload.Complete | Solution/huqingwei/week1/1_G.c:37-40 | once a quotient is 0, the terms so far decide whether any number of terms reaches n |
| Workload.Both | Solution/wuxinyue/week1G.c:17-37 | the two programs print the same, for every n of at least 0 and k of at least 2 |
| Permutations.Qsort | Solution/liuting/18.c:39 | what the programs rely on `qsort` for: an ordered rearrangement of the cells |

## Left out

- Programmes.MostProgrammes: with a programme that ends before it starts it gives only the sorted list and the count the loop arrives at, because such a programme is no stretch of time and overlaps mean nothing for it.
- Workload.Area: does not model that `a *= k` can pass the range of `int`, and k of at least 1 is required; the source divides by k, and a negative one means nothing for the sum.
- Workload.Wancheng: k of at least 2 is required; with k = 1 the loop of the source does not end.
- Divide.TwoThreeFive: 0 is excluded; the loop of the source does not end on it.
- TaskQueue.Queue.Pop: the empty queue is excluded; the source reads through a null link there.
- Machine integers other than `long long` in `Divide.dfy`: counts and sums are unbounded.
- Floating-point rounding in `17.c`: amounts are reals, and costs are positive so that the ratios exist.
- Pool shutdown: `thread_pool_stop`, `thread_pool_destroy`, the branch of `thread_work` that exits, and the allocation of `sizeof(task)` bytes for a task.
- The read of `a[-1]` at `18.c` line 44: the model looks at `j` first.
- Negative numbers in the multiples-of-3 programs, and the sizes of fixed buffers.
- Failing queries, names, passwords, friends and chat records of the server; the replies' texts; the notices `deal_join_user` and `deal_dele_user` send afterwards.
- `free` of removed nodes, here and in the queue.
- Input that ends before a tree is complete: `CreateBiTree` of the model stops and says so.
- The initialisation of six chopsticks of which five are set up explicitly.
- Sockets, epoll, terminal menus, file transfer, the shells, directory reading and display in the `ls` programs.
- `deal_chat_group` and the requests of `Code/huqingwei/chat_room/epoll.c`, which use state that is never set up or never taken out.
- Easy members: Caesar decoding, the Bash game, list reversal, longest runs.
