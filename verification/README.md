# Verified models of the systems-course programs

This project models the programs of the repository whose correctness is not obvious from
their text, and proves what they promise. Concurrent programs are step systems: a step is
one lock, unlock, read, write, signal or wait, a schedule is any sequence of steps, and the
results hold for every schedule, every number of threads and every input size. Beside each
step system stands a class that performs the same steps in place under an arbitrary
scheduler. Sequential programs are methods over arrays and objects, proved against
specification functions whose own properties are proved as lemmas.

- `Runs.dfy`: runs of a step system, invariants, measures. `LockPrograms.dfy`: programs of
  lock, load, store and unlock instructions; race freedom, lost updates, lock ordering.
- `MutexRing.dfy` (inf19-3.c): the ring of mutexes. It can deadlock exactly when the number
  of threads is 4, 7, 10, ...; every way in which it can stop is described, and a finished run
  always has the exact sums.
- `ListPush.dfy`, `ListPushProgram.dfy` (inf19-2.c): the lock-free list.
- `Primes.dfy`, `PrimeStream.dfy` (inf19-1.c): producer and consumer with a condition
  variable. The program finishes except when 0 lies in the range, because 0 counts as prime
  and is also the mark of an empty slot.
- `Spiral.dfy`, `FixedWidth.dfy` (inf10-2.c): spiral filling and fixed-width rendering.
- `Limbs.dfy` (gmp.h): the multi-precision inline functions. `MpzExpr.dfy` (gmpxx.h): the
  expression templates over mpz_class, with destinations that occur in the expression.
  `MpzLaws.dfy`: what its operators compute, by bits, bounds and divisibility.
- `InternetChecksum.dfy` (inf22-1.c, inf22-1-1.c, inf22-1-ver1.c): RFC 1071.
- `Smokers.dfy` (inf20-2.c): hand-off through two semaphores and shutdown by signals.
- `PathStrings.dfy`, `UnionFs.dfy` (inf24-1.cpp, fuse_c_example/main.c): the union of
  directories, by sorted index and by scan.
- `PingPong.dfy` (inf18-2.c), `ParallelMap.dfy` (inf20-1.c), `Utf8Counter.dfy` (inf02-5.c).
- `Arithmetic.dfy`: facts about products and quotients.

`dafny verify dfyconfig.toml` checks the whole project.

## Where the code falls short of its purpose

These are stated as exact conditions, with the failing runs or inputs as lemmas.

- inf19-3.c deadlocks for n >= 4 with n mod 3 = 1 (`MutexRing.DeadlockFreeExactly`).
- inf19-1.c never finishes when low = 0 <= high and N > 0 (`PrimeStream.FinishesExactly`).
- inf10-2.c cuts off digits when n^2 >= 10^format_len (`FixedWidth.ReadableExactly`).
- gmpxx.h divides longs in C: LONG_MIN by a variable holding -1 overflows (`MpzExpr.SlDivides`).
- inf22-1.c and its variants lose one for each wrap of the 32-bit sum, first possible at
  131075 bytes, and part of an odd last byte on big-endian hosts; the result is right exactly
  when that adds up to nothing modulo 2^16 - 1, the two zeros apart
  (`InternetChecksum.CorrectExactly`).
- inf20-2.c prints the last item again for each smoker that passes its test with the signal
  still pending, and hangs when more tokens are wasted so than smokers end without one
  (`Smokers.ExactOutput`, `Smokers.AllExit`); some run does both (`Smokers.CanHang`).
- inf24-1.cpp loses the first character of every relative path of a directory given with a trailing
  separator (`PathStrings.KeyExactly`, `UnionFs.StoredExactly`), and which of two equally new files it shows
  depends on the sort (`UnionFs.SameFileExactly`).
- inf02-5.c checks the framing of UTF-8 but not its values: what it accepts is valid exactly
  when every unit is canonical (`Utf8Counter.ValidExactly`).

## Model

| member | source | states |
|---|---|---|
| MutexRing.Left | inf19-3.c:142-143 | the wrap-around formula names the neighbour before `i`, and thread n-1 for thread 0 |
| MutexRing.Right | inf19-3.c:144-145 | the wrap-around formula names the neighbour after `i`, and thread 0 for thread n-1 |
| MutexRing.RingIsGuarded | inf19-3.c:33-106 | for every n, every access to a cell happens while one fixed mutex is held: the cell's own for n >= 3, mutex 0 for n <= 2; locks and unlocks are balanced |
| MutexRing.RanksClimb | inf19-3.c:66-102 | for n >= 3 with n mod 3 != 1, the three mutexes of each thread are taken in strictly increasing rank, although the wrap-around breaks the residue pattern differently for n mod 3 = 0 and 2 |
| MutexRing.RingIsOrdered | inf19-3.c:33-106 | for n = 1, and for every n with n mod 3 != 1, each lock is taken while only mutexes of lower rank are held |
| MutexRing.ProgramAdds | inf19-3.c:33-106 | one iteration of a thread adds 99, 100 and 101 hundredths to its left, own and right cell, in every branch |
| MutexRing.FinalValues | inf19-3.c:33-106 | in every schedule, with each `+=` split into a read and a write, a finished run leaves 300 hundredths times the iteration count in every cell: no update is lost |
| MutexRing.CanJam | inf19-3.c:66-90 | for n >= 4 with n mod 3 = 1 a state is reachable in which thread 0 holds mutex 0 and wants n-1 while thread n-1 holds n-1 and wants 0 |
| MutexRing.JammedForever | inf19-3.c:66-90 | from such a state no schedule ever finishes: the two threads stay blocked |
| MutexRing.DeadlockFreeExactly | inf19-3.c:28-108 | every reachable unfinished state has an enabled thread if and only if the iteration count is 0, n = 1, or n mod 3 != 1 |
| MutexRing.StopsOnlyJammed | inf19-3.c:66-102 | for n >= 4 with n mod 3 = 1, every reachable state in which nothing can move and work is left has thread n-1 waiting for mutex 0 and either thread 0 waiting for mutex n-1 or, only for n = 4, thread 1 holding mutex 0 and waiting for 2 |
| MutexRing.CanJamAcross | inf19-3.c:79-102 | the second kind of jam is reachable in a ring of four |
| MutexRing.AcrossBlocks | inf19-3.c:79-102 | and its two threads block each other |
| MutexRing.RunsAreFinite | inf19-3.c:31-107 | no schedule is longer than 12 instructions per thread and iteration |
| MutexRing.CanFinish | inf19-3.c:28-108 | for every n some schedule brings every thread to its end |
| MutexRing.Run | inf19-3.c:111-161 | the whole program under an arbitrary schedule ends in a reachable state without steps and reports all threads joined if and only if each has done its iterations there, which is certain for the deadlock-free sizes; the buffer is that state's, and after a join it holds 300 hundredths times the iteration count in each cell |
| LockPrograms.NoRace | inf19-3.c:33-106 | two threads never stand before accesses to the same cell |
| LockPrograms.ReachableInv | inf19-3.c:33-106 | in every reachable state a mutex is owned by exactly the thread whose executed instructions hold it, and each cell holds the sum of what the threads have added |
| LockPrograms.WaitsForHolder | inf19-3.c:33-106 | a thread that cannot move waits for a mutex held by an unfinished thread |
| LockPrograms.SomeoneIsToBlame | inf19-3.c:33-106 | for any ranking, an unfinished thread leads to one that can move or to one whose next lock is not above those it holds |
| LockPrograms.OrderedIsDeadlockFree | inf19-3.c:33-106 | guarded programs that take their locks in increasing rank cannot deadlock, for any number of threads and rounds |
| LockPrograms.SomeRunFinishes | inf19-3.c:28-108 | guarded programs finish in some run, whatever the order of their locks |
| LockPrograms.NextRemaining | inf19-3.c:31-107 | every step lowers the number of instructions still to be executed by one |
| LockPrograms.GuardedRunsAreFinite | inf19-3.c:31-107 | no schedule is longer than the number of instructions to be executed |
| LockPrograms.FinishedCells | inf19-3.c:33-106 | a finished run leaves in each cell the rounds times what one round of all programs adds to it |
| LockPrograms.Machine.constructor | inf19-3.c:121-151 | all mutexes free, all cells 0, all threads before their first instruction |
| LockPrograms.Machine.Execute | inf19-3.c:35-102 | one instruction of one thread (lock, load, store, unlock) changes owners, cells and thread exactly as the transition function says |
| LockPrograms.Machine.RunAll | inf19-3.c:149-156 | letting arbitrary threads move ends in a reachable state in which no thread can move |
| ListPush.ListIntact | inf19-2.c:27-44 | in every reachable state the links from the head form an acyclic list that ends in the sentinel and holds exactly the nodes whose compare-and-swap succeeded, each once, the latest first |
| ListPush.PushIsAtomic | inf19-2.c:32-40 | seen through the links in the heap, a step puts the mover's node in front of the old list if its compare-and-swap succeeds and otherwise leaves the list unchanged; numbers in the list never change and the pushed one is I*K+i |
| ListPush.ListIsUnique | inf19-2.c:80-84 | a heap has at most one list from a given head, so the statements about the list are about what any traversal meets |
| ListPush.NeverBlocked | inf19-2.c:30-41 | a thread with pushes left can always move |
| ListPush.FailuresAreBounded | inf19-2.c:35-40 | compare-and-swaps that fail because the head differed are at most (N-1) times the successful pushes, in any run |
| ListPush.StepsCounted | inf19-2.c:30-41 | the length of a run is four steps per push plus the unfinished attempts plus three per failed swap; the list grows with the pushes |
| ListPush.RunsAreFinite | inf19-2.c:27-44 | only spurious failures can prolong a run beyond 4NK + 3(N-1)NK steps |
| ListPush.CompleteIsPermutation | inf19-2.c:33 | when each of the N threads has pushed its K numbers, the pushed numbers are a permutation of 0..NK-1 |
| ListPush.JoinedList | inf19-2.c:76-84 | after the join the list met from the head holds each of 0..NK-1 once |
| ListPush.LatestFirst | inf19-2.c:27-44 | at every moment the numbers of one thread stand in the list in strictly decreasing order |
| ListPush.FirstIsProduct | inf19-2.c:33 | the repeated addition used for a thread's first number is I*K |
| ListPushProgram.Pushers.constructor | inf19-2.c:61-75 | the heap holds only the sentinel with a null link, and every thread is before its first allocation |
| ListPushProgram.Pushers.Act | inf19-2.c:32-40 | one step of one thread (allocate, read the head, set next, compare-and-swap) updates heap, head and locals as the transition function says |
| ListPushProgram.Pushers.RunAll | inf19-2.c:66-79 | with any bounded number of spurious failures, arbitrary scheduling ends with every thread having pushed K nodes |
| ListPushProgram.Traverse | inf19-2.c:80-84 | the traversal prints the value, as an int, of every node of the list except the last, in list order |
| ListPushProgram.AsIntIs | inf19-2.c:80-84 | what is printed of a number is an int that differs from it by a multiple of 2^32 |
| ListPushProgram.ClearList | inf19-2.c:46-54 | exactly the nodes of the list other than the last are freed, each while still allocated |
| ListPushProgram.AllNodesListed | inf19-2.c:30-41 | once all threads are done every allocated node is in the list |
| ListPushProgram.PrintsExactly | inf19-2.c:80-84 | as long as NK does not exceed 2^31, the printed ints are the numbers themselves |
| ListPushProgram.OnlySentinelLeft | inf19-2.c:85-87 | after clear_list only the sentinel is still allocated |
| ListPushProgram.RunProgram | inf19-2.c:57-88 | the whole program prints the ints of a permutation of 0..NK-1 in which the numbers of each thread stand in strictly decreasing order, and leaks exactly the sentinel |
| Primes.IsPrime | inf19-1.c:25-41 | the answer is 1 exactly for primes and for 0, for which the loop is empty |
| Primes.SmallDivisor | inf19-1.c:32-39 | a composite number has a divisor not above the integer root, so the loop bound is sufficient |
| Primes.PrimeHasNoFactors | inf19-1.c:25-41 | of two factors of a prime one is 1 |
| Primes.CompositeHasFactors | inf19-1.c:25-41 | every other number from 2 on is a product of two factors from 2 on |
| Primes.PrimesInAre | inf19-1.c:43-61 | the list used as specification contains exactly the primes of an interval, strictly ascending |
| PrimeStream.NoLostWakeup | inf19-1.c:55-65 | a consumer that sleeps although its slot is filled will still be signalled, including for the -1 written outside the mutex, and never sleeps once the producer has exited |
| PrimeStream.Progress | inf19-1.c:43-112 | without any spurious wakeup, every reachable unfinished state has a thread that can move |
| PrimeStream.OutputIsPrimes | inf19-1.c:96-112 | the output is always a prefix of the first min(N, count) primes of [low, high], and all of them when the consumer has finished |
| PrimeStream.WantedAre | inf19-1.c:43-61 | the wanted primes are at most N primes of [low, high], ascending; one is missing only if there are N smaller ones |
| PrimeStream.SlotsAreStable | inf19-1.c:55-62 | a slot is never written again after it is non-zero, so the read after the unlock is stable; all indices stay within N |
| PrimeStream.ThreadRunsAreShort | inf19-1.c:43-112 | schedules of the two threads without spurious wakeups are bounded by an explicit measure |
| PrimeStream.ThreadsFinish | inf19-1.c:43-115 | such a schedule that cannot be continued has ended both threads and printed exactly the wanted primes |
| PrimeStream.StarvedForever | inf19-1.c:47-60 | for low = 0 <= high and N > 0 the producer publishes 0, which the consumer takes for "not yet": it never gets past its first slot |
| PrimeStream.FinishesExactly | inf19-1.c:43-115 | the program can finish if and only if low >= 1, high < 0 or N = 0 |
| PrimeStream.Program.constructor | inf19-1.c:75-94 | buffer of N+1 zeros, mutex free, both threads at their start |
| PrimeStream.Program.Produce | inf19-1.c:44-67 | one step of the producer, with is_prime called where the source calls it |
| PrimeStream.Program.Consume | inf19-1.c:96-113 | one step of the consumer |
| PrimeStream.Program.RunAll | inf19-1.c:94-113 | any interleaving with boundedly many spurious wakeups ends with both threads done and the wanted primes printed |
| PrimeStream.RunProgram | inf19-1.c:70-116 | the whole program prints exactly the wanted primes |
| Spiral.RingStarts | inf10-2.c:44-50 | ring c starts with the value n^2 - (n-2c)^2 + 1 |
| Spiral.PlaceOfValue | inf10-2.c:44-88 | distinct cells have distinct values, all within 1..n^2, and the place of a value is computed by skipping rings |
| Spiral.ValueOfPlace | inf10-2.c:44-88 | every value 1..n^2 has a cell: with the previous row, a bijection for even and odd n |
| Spiral.NextIsAdjacent | inf10-2.c:44-88 | consecutive values lie in cells that share a side |
| Spiral.Sides | inf10-2.c:46-65 | the values along the four inner loops of a ring |
| Spiral.AfterRings | inf10-2.c:69-88 | after the rings an even matrix is full and the centre of an odd one still needs n^2 |
| Spiral.FillTop | inf10-2.c:46-50 | the first inner loop writes the next n-2c values, each into the cell that has it and each cell for the first time |
| Spiral.FillRight | inf10-2.c:51-55 | the same for the right column |
| Spiral.FillBottom | inf10-2.c:56-60 | the same for the bottom row, leftwards |
| Spiral.FillLeft | inf10-2.c:61-65 | the same for the left column, upwards |
| Spiral.Fill | inf10-2.c:36-88 | every cell ends with its spiral value, and the sequence of all assignments is exactly the places of 1, 2, ..., n^2: each cell is written once |
| FixedWidth.ParseOfField | inf10-2.c:102-113 | stripping blanks and parsing a rendered field gives the number modulo 10^len |
| FixedWidth.ParseIsExact | inf10-2.c:102-113 | a number is read back exactly if and only if it is below 10^len |
| FixedWidth.FieldChars | inf10-2.c:102-113 | counted from the right, character j of a field is the decimal digit of weight 10^j, or a blank above the highest digit |
| FixedWidth.ReadableExactly | inf10-2.c:98-116 | all cells of the spiral can be read back if and only if n^2 < 10^len |
| FixedWidth.LargestIsUnreadable | inf10-2.c:98-116 | otherwise some cell cannot |
| FixedWidth.FieldInText | inf10-2.c:107-115 | in the whole text the field of cell (r, c) starts at r(n*len+1) + c*len and every row ends with a line feed |
| FixedWidth.RowsLength | inf10-2.c:34 | the text has i rows of n*len+1 bytes |
| FixedWidth.Put | inf10-2.c:107-115 | one assignment to the mapped buffer, in bounds, to a byte that has not been assigned before |
| FixedWidth.RenderDigit | inf10-2.c:105-112 | one turn of the innermost loop: the last digit that is left, or a blank, goes to one byte |
| FixedWidth.RenderCell | inf10-2.c:102-113 | the innermost loop leaves the field of the value and writes each of its bytes once |
| FixedWidth.RenderRow | inf10-2.c:100-115 | a row is its fields followed by a line feed, every byte written once |
| FixedWidth.RenderRows | inf10-2.c:98-116 | the outer loop fills a buffer of n(n*len+1) bytes with the text of the matrix, each byte once |
| FixedWidth.Render | inf10-2.c:98-116 | the buffer is exactly the text of the matrix, and the bytes assigned, none of them twice, are all bytes of the buffer |
| FixedWidth.RunProgram | inf10-2.c:26-117 | if n^2 < 10^len, parsing each field of the file gives back the spiral that was filled |
| Limbs.NumBound | gcc-linaro-7.3.1-2018.05-i686_arm-linux-gnueabi/include/gmp.h:1913-1945 | n limbs stand for a number below 2^(32n) |
| Limbs.NumInjective | gcc-linaro-7.3.1-2018.05-i686_arm-linux-gnueabi/include/gmp.h:2069-2089 | a number has one representation of a given length |
| Limbs.HighestDecides | gcc-linaro-7.3.1-2018.05-i686_arm-linux-gnueabi/include/gmp.h:2078-2088 | the highest place that differs decides the order |
| Limbs.Add | gcc-linaro-7.3.1-2018.05-i686_arm-linux-gnueabi/include/gmp.h:2132-2137 | result + carry * B^xsize = x + y, for any ysize <= xsize, with the destination equal to or separate from either source; limbs above are untouched |
| Limbs.Sub | gcc-linaro-7.3.1-2018.05-i686_arm-linux-gnueabi/include/gmp.h:2187-2192 | result - borrow * B^xsize = x - y, with the same aliasing |
| Limbs.Add1 | gcc-linaro-7.3.1-2018.05-i686_arm-linux-gnueabi/include/gmp.h:2145-2150 | result + carry * B^n = source + v, in place or not |
| Limbs.Sub1 | gcc-linaro-7.3.1-2018.05-i686_arm-linux-gnueabi/include/gmp.h:2200-2205 | result - borrow * B^n = source - v, in place or not |
| Limbs.RunCarry | gcc-linaro-7.3.1-2018.05-i686_arm-linux-gnueabi/include/gmp.h:1928-1937 | the loop that lets a carry of one run upwards, stop, and copy the rest |
| Limbs.RunBorrow | gcc-linaro-7.3.1-2018.05-i686_arm-linux-gnueabi/include/gmp.h:1994-2007 | the same for a borrow |
| Limbs.CopyRest | gcc-linaro-7.3.1-2018.05-i686_arm-linux-gnueabi/include/gmp.h:2105-2115 | copies the limbs from `start` on and no others |
| Limbs.AddN | gcc-linaro-7.3.1-2018.05-i686_arm-linux-gnueabi/include/gmp.h:1926 | the contract of mpn_add_n on which the macro relies, with a column-wise body |
| Limbs.SubN | gcc-linaro-7.3.1-2018.05-i686_arm-linux-gnueabi/include/gmp.h:1926 | the contract of mpn_sub_n on which the macro relies |
| Limbs.Cmp | gcc-linaro-7.3.1-2018.05-i686_arm-linux-gnueabi/include/gmp.h:2069-2089 | the result is 1, 0 or -1 as the number of x is greater than, equal to or less than the number of y |
| Limbs.IsZero | gcc-linaro-7.3.1-2018.05-i686_arm-linux-gnueabi/include/gmp.h:2171-2179 | 1 exactly when the number is 0 |
| Limbs.Com | gcc-linaro-7.3.1-2018.05-i686_arm-linux-gnueabi/include/gmp.h:2227 | the contract of mpn_com: each limb is replaced by its complement |
| Limbs.Complement | gcc-linaro-7.3.1-2018.05-i686_arm-linux-gnueabi/include/gmp.h:2224-2227 | complementing the limbs above i extends B^i - x to B^n - x |
| Limbs.NegZeros | gcc-linaro-7.3.1-2018.05-i686_arm-linux-gnueabi/include/gmp.h:2215-2221 | low zero limbs stay zero, and the loop stops at the lowest limb that is not zero |
| Limbs.Neg | gcc-linaro-7.3.1-2018.05-i686_arm-linux-gnueabi/include/gmp.h:2213-2230 | the result is B^n - u, or 0 for u = 0, and the return value is 0 exactly for u = 0 |
| Limbs.AddThenSub | gcc-linaro-7.3.1-2018.05-i686_arm-linux-gnueabi/include/gmp.h:2132-2192 | adding in place and subtracting the same number restores every limb, with equal carry and borrow |
| MpzExpr.QuotRem | gcc-linaro-7.3.1-2018.05-i686_arm-linux-gnueabi/include/gmpxx.h:606-668 | quotient towards zero, remainder smaller than the divisor with the sign of the dividend |
| MpzExpr.LongQuotient | gcc-linaro-7.3.1-2018.05-i686_arm-linux-gnueabi/include/gmpxx.h:660-663 | the quotient of two longs is a long, except for LONG_MIN / -1 |
| MpzExpr.EvalUnary | gcc-linaro-7.3.1-2018.05-i686_arm-linux-gnueabi/include/gmpxx.h:163-180 | +, -, ~, abs and sqrt of a variable, which may be the destination; fails exactly for the root of a negative number |
| MpzExpr.EvalBinary | gcc-linaro-7.3.1-2018.05-i686_arm-linux-gnueabi/include/gmpxx.h:184-185 | the operators on two variables, the bit operators, gcd and lcm among them; either or both variables may be the destination; fails exactly on a zero divisor |
| MpzExpr.BitwiseAt | gcc-linaro-7.3.1-2018.05-i686_arm-linux-gnueabi/include/gmpxx.h:806-859 | bit k of the bitwise combination of two integers in two's complement is the combination of their bits k |
| MpzExpr.DivisorDivides | gcc-linaro-7.3.1-2018.05-i686_arm-linux-gnueabi/include/gmpxx.h:1151-1167 | the value of gcd divides both numbers |
| MpzExpr.DivisorIsGreatest | gcc-linaro-7.3.1-2018.05-i686_arm-linux-gnueabi/include/gmpxx.h:1151-1167 | every common divisor divides it |
| MpzExpr.MultipleIsCommon | gcc-linaro-7.3.1-2018.05-i686_arm-linux-gnueabi/include/gmpxx.h:1169-1185 | both numbers divide the value of lcm |
| MpzExpr.MultipleIsLeast | gcc-linaro-7.3.1-2018.05-i686_arm-linux-gnueabi/include/gmpxx.h:1169-1185 | it divides every common multiple |
| MpzExpr.ApplyCommutes | gcc-linaro-7.3.1-2018.05-i686_arm-linux-gnueabi/include/gmpxx.h:198-199 | for the operators whose built-in left operand is passed on as a right one, the exchange makes no difference |
| MpzExpr.EvalShift | gcc-linaro-7.3.1-2018.05-i686_arm-linux-gnueabi/include/gmpxx.h:434-468 | multiplication and floor division by a power of two, with or without the constant shortcut |
| MpzExpr.PlusUl | gcc-linaro-7.3.1-2018.05-i686_arm-linux-gnueabi/include/gmpxx.h:187-197 | adds an unsigned long whether or not the compiler knows it to be 0 |
| MpzExpr.PlusSl | gcc-linaro-7.3.1-2018.05-i686_arm-linux-gnueabi/include/gmpxx.h:200-206 | adds a long; the negation is done in unsigned arithmetic and is right even for LONG_MIN |
| MpzExpr.MinusUl | gcc-linaro-7.3.1-2018.05-i686_arm-linux-gnueabi/include/gmpxx.h:293-301 | subtracts an unsigned long |
| MpzExpr.MinusSl | gcc-linaro-7.3.1-2018.05-i686_arm-linux-gnueabi/include/gmpxx.h:311-317 | subtracts a long, LONG_MIN included |
| MpzExpr.UlMinus | gcc-linaro-7.3.1-2018.05-i686_arm-linux-gnueabi/include/gmpxx.h:302-310 | an unsigned long minus the variable |
| MpzExpr.SlMinus | gcc-linaro-7.3.1-2018.05-i686_arm-linux-gnueabi/include/gmpxx.h:318-327 | a long minus the variable, in two destructive steps |
| MpzExpr.MultipliesUl | gcc-linaro-7.3.1-2018.05-i686_arm-linux-gnueabi/include/gmpxx.h:487-505 | the shortcut for constant powers of two and zero agrees with the product |
| MpzExpr.MultipliesSl | gcc-linaro-7.3.1-2018.05-i686_arm-linux-gnueabi/include/gmpxx.h:508-519 | the shortcuts for constants of known sign agree with the product |
| MpzExpr.DividesUl | gcc-linaro-7.3.1-2018.05-i686_arm-linux-gnueabi/include/gmpxx.h:611-628 | quotient towards zero by an unsigned long; the shortcut for powers of two rounds the same way; fails exactly on 0 |
| MpzExpr.UlDivides | gcc-linaro-7.3.1-2018.05-i686_arm-linux-gnueabi/include/gmpxx.h:629-649 | an unsigned long divided by the variable, for divisors of any size and sign; the destination may be the divisor |
| MpzExpr.DividesSl | gcc-linaro-7.3.1-2018.05-i686_arm-linux-gnueabi/include/gmpxx.h:650-659 | quotient towards zero by a long, LONG_MIN included |
| MpzExpr.SlDivides | gcc-linaro-7.3.1-2018.05-i686_arm-linux-gnueabi/include/gmpxx.h:660-670 | a long divided by the variable: right for every divisor, including LONG_MIN by -LONG_MIN, and failing exactly for 0 and for LONG_MIN by -1, where the division of longs overflows |
| MpzExpr.ModulusUl | gcc-linaro-7.3.1-2018.05-i686_arm-linux-gnueabi/include/gmpxx.h:765-766 | remainder by an unsigned long |
| MpzExpr.UlModulus | gcc-linaro-7.3.1-2018.05-i686_arm-linux-gnueabi/include/gmpxx.h:767-784 | remainder of an unsigned long by the variable |
| MpzExpr.ModulusSl | gcc-linaro-7.3.1-2018.05-i686_arm-linux-gnueabi/include/gmpxx.h:785-788 | remainder by a long: only its magnitude matters |
| MpzExpr.SlModulus | gcc-linaro-7.3.1-2018.05-i686_arm-linux-gnueabi/include/gmpxx.h:789-799 | remainder of a long by the variable, failing exactly where SlDivides does |
| MpzExpr.EvalRightByTemp | gcc-linaro-7.3.1-2018.05-i686_arm-linux-gnueabi/include/gmpxx.h:806-823 | a built-in right operand, a double without its fraction included, used through a temporary |
| MpzExpr.EvalLeftByTemp | gcc-linaro-7.3.1-2018.05-i686_arm-linux-gnueabi/include/gmpxx.h:671-674 | a double as left operand, used through a temporary |
| MpzExpr.EvalRight | gcc-linaro-7.3.1-2018.05-i686_arm-linux-gnueabi/include/gmpxx.h:2265-2287 | the specialisation for a variable and a built-in value, for every operator and built-in type |
| MpzExpr.EvalLeft | gcc-linaro-7.3.1-2018.05-i686_arm-linux-gnueabi/include/gmpxx.h:2289-2304 | the specialisation for a built-in value and a variable, for every operator and built-in type |
| MpzExpr.EvalTemp | gcc-linaro-7.3.1-2018.05-i686_arm-linux-gnueabi/include/gmpxx.h:2138-2147 | a fresh temporary holds the value of its expression and nothing else changes |
| MpzExpr.EvalVarTree | gcc-linaro-7.3.1-2018.05-i686_arm-linux-gnueabi/include/gmpxx.h:2378-2414 | a variable and a tree: right although p may be the variable, a leaf of the tree, or both |
| MpzExpr.EvalTreeVar | gcc-linaro-7.3.1-2018.05-i686_arm-linux-gnueabi/include/gmpxx.h:2416-2448 | a tree and a variable, with the same aliasing |
| MpzExpr.EvalTreeTree | gcc-linaro-7.3.1-2018.05-i686_arm-linux-gnueabi/include/gmpxx.h:2552-2569 | two trees: the right one is evaluated before the left one overwrites p |
| MpzExpr.Eval | gcc-linaro-7.3.1-2018.05-i686_arm-linux-gnueabi/include/gmpxx.h:2176-2304 | for every tree and every p, also one that occurs among the leaves, eval stores the mathematical value over the initial contents and changes only p; it fails if and only if some division in the tree is by zero or overflows or some root is of a negative number |
| MpzLaws.ComFlips | gcc-linaro-7.3.1-2018.05-i686_arm-linux-gnueabi/include/gmpxx.h:177-180 | `~` inverts every bit of the two's complement |
| MpzLaws.LogicalBits | gcc-linaro-7.3.1-2018.05-i686_arm-linux-gnueabi/include/gmpxx.h:806-859 | bit k of `&`, `|` and `^` is 1 if and only if both bits k are, at least one is, or they differ |
| MpzLaws.BitsDetermine | gcc-linaro-7.3.1-2018.05-i686_arm-linux-gnueabi/include/gmpxx.h:806-859 | two integers with the same bits are equal, so the laws on bits fix the results |
| MpzLaws.LeftShiftDoubles | gcc-linaro-7.3.1-2018.05-i686_arm-linux-gnueabi/include/gmpxx.h:434-445 | a shift to the left by 0 changes nothing, and each further place doubles |
| MpzLaws.LeftShiftBits | gcc-linaro-7.3.1-2018.05-i686_arm-linux-gnueabi/include/gmpxx.h:434-445 | bit k moves to k + n, and the bits below n are 0 |
| MpzLaws.RightShiftFloors | gcc-linaro-7.3.1-2018.05-i686_arm-linux-gnueabi/include/gmpxx.h:458-469 | a shift to the right rounds down, for negative numbers too: shifted back the result is at most the number, and one more is above it |
| MpzLaws.RightShiftBits | gcc-linaro-7.3.1-2018.05-i686_arm-linux-gnueabi/include/gmpxx.h:458-469 | bit k of the result is bit k + n of the number, of either sign |
| MpzLaws.UnaryLaws | gcc-linaro-7.3.1-2018.05-i686_arm-linux-gnueabi/include/gmpxx.h:1071-1098 | -a plus a is 0 (lines 170-175); abs is not negative and is a or -a; sqrt is the integer root, and fails exactly when no integer has a square at or below a |
| MpzLaws.Truncates | gcc-linaro-7.3.1-2018.05-i686_arm-linux-gnueabi/include/gmpxx.h:113-120 | longs enter as they are; a double enters as the integer between 0 and it, less than 1 away |
| MpzLaws.FourOperations | gcc-linaro-7.3.1-2018.05-i686_arm-linux-gnueabi/include/gmpxx.h:182-668 | sum, difference, product, and the quotient and remainder that belong together, the remainder smaller than the divisor and never of the other sign than the dividend |
| MpzLaws.FaultMeans | gcc-linaro-7.3.1-2018.05-i686_arm-linux-gnueabi/include/gmpxx.h:660-670 | a division with a built-in dividend fails exactly for the divisor 0 and for a quotient of longs that is not a long |
| MpzLaws.GcdDivides | gcc-linaro-7.3.1-2018.05-i686_arm-linux-gnueabi/include/gmpxx.h:1151-1167 | gcd of any two integers divides both and is not negative |
| MpzLaws.GcdIsGreatest | gcc-linaro-7.3.1-2018.05-i686_arm-linux-gnueabi/include/gmpxx.h:1151-1167 | every integer that divides both divides it |
| MpzLaws.LcmIsCommon | gcc-linaro-7.3.1-2018.05-i686_arm-linux-gnueabi/include/gmpxx.h:1169-1185 | lcm is a common multiple, not negative, and 0 if and only if an operand is |
| MpzLaws.LcmIsLeast | gcc-linaro-7.3.1-2018.05-i686_arm-linux-gnueabi/include/gmpxx.h:1169-1185 | it divides every common multiple |
| MpzLaws.TreeLaws | gcc-linaro-7.3.1-2018.05-i686_arm-linux-gnueabi/include/gmpxx.h:2176-2304 | which operand of a tree is which, and when a quotient of trees is safe |
| InternetChecksum.ResidueAdds | inf22-1.c:79-87 | end-around addition of residues is addition modulo 2^16 - 1 with two zeros |
| InternetChecksum.OnesSumIsResidue | inf22-1.c:79-82 | the one's complement sum of RFC 1071 section 1 is the residue of the ordinary sum |
| InternetChecksum.FoldsGiveResidue | inf22-1.c:87-89 | for every 32-bit accumulator two folds and a complement give the complement of its residue |
| InternetChecksum.ChecksumWalking | inf22-1.c:73-91 | the pointer-walking form returns the complemented residue of the wrapped sum of the words and the odd byte, for every int length up to the buffer's, negative ones included |
| InternetChecksum.ComputeCheckSum | inf22-1-1.c:32-51 | the indexed form returns the same value for every buffer and length |
| InternetChecksum.SameResidueExactly | inf22-1.c:79-89 | each wrap of the accumulator loses one modulo 2^16 - 1 |
| InternetChecksum.CorrectExactly | inf22-1-ver1.c:26-39 | for every host byte order and every int length, the result is the checksum of RFC 1071 if and only if wraps + missing part of an odd last byte is 0, or is 0xFFFF while the wrapped sum is not 0 |
| InternetChecksum.CorrectWithoutWrap | inf22-1-ver1.c:26-39 | on little-endian hosts, and for even lengths on all, that is when the 32-bit accumulator does not wrap |
| InternetChecksum.CorrectWhenShort | inf22-1.c:79-91 | no buffer of up to 131074 bytes wraps, and then the result is the RFC's if and only if nothing of an odd last byte is missing |
| InternetChecksum.SectionThree | inf22-1.c:73-91 | the example of section 3 of RFC 1071, on hosts of both byte orders |
| InternetChecksum.Wraps | inf22-1.c:79-86 | 131075 bytes of 0xFF give a wrong checksum on every host |
| InternetChecksum.OddOnBigEndian | inf22-1.c:83-86 | on a big-endian host an odd length whose sum does not wrap is right if and only if the last byte is 0 |
| InternetChecksum.VerifiesExactly | inf22-1.c:73-91 | with w in a zeroed aligned field, as long as the sum does not wrap, the checksum of the packet is 0 if and only if w is the checksum computed before (or the other zero), as RFC 1071 section 1 requires of receivers |
| InternetChecksum.ByteOrderIndependence | inf22-1-1.c:39-50 | RFC 1071 section 2(B): as long as the sums do not wrap, swapping the bytes of every word of an even-length buffer swaps the bytes of the checksum |
| InternetChecksum.HostsAgree | inf22-1-1.c:39-50 | hosts of both byte orders store the same two bytes into a packet of even length whose sums do not wrap |
| Smokers.OneToken | inf20-2.c:41-49 | in every run, before the shutdown exactly one token is shared by `take`, `give` and the smokers while the barman waits, and none otherwise |
| Smokers.NoOverwrite | inf20-2.c:43-48 | in every run the shared item is written only when every letter before it has been printed |
| Smokers.LettersAre | inf20-2.c:43-45 | the bytes passed on are the 52 letters, and either case of one becomes its upper case |
| Smokers.WantedIs | inf20-2.c:41-49 | the wanted output has, for each place of the input that holds one of the 52 letters and has no end and no byte from 128 on at or before it, in order, that letter in upper case and a space, and nothing else |
| Smokers.OutputIsLetters | inf20-2.c:41-78 | in every run the output is a prefix of the wanted output until the shutdown, and then the wanted output followed by the last item once for each late smoker that has printed |
| Smokers.ItemIsLast | inf20-2.c:45-75 | in the shutdown the shared item is the last letter of the wanted output, or 0 if that is empty |
| Smokers.CopiesAre | inf20-2.c:75 | n copies of an item are n pairs of it and a space |
| Smokers.ExactOutput | inf20-2.c:69-78 | a run that cannot be continued prints the letters and then the last item once for each test at line 72 that is passed with a signal pending; so its output is exact if and only if there is no such test |
| Smokers.AllExit | inf20-2.c:50-80 | such a run ends all smokers if and only if these late tests do not outnumber the steps at which a smoker ends without taking a token (killed before the handler is installed, or stopped at line 69); the difference is how many wait for ever |
| Smokers.LateIsBounded | inf20-2.c:54-78 | no run has more late tests than smokers, so the last item is printed at most that many times more |
| Smokers.PromptRunsAreExact | inf20-2.c:31-80 | when every smoker handles a signal it has been sent before it takes the next token, the output is at all times a prefix of the letters, and a run that cannot be continued has printed exactly the letters and ended all smokers |
| Smokers.PromptIsNeverLate | inf20-2.c:50-77 | in such runs no test is late: the first token of the shutdown is posted after all signals |
| Smokers.RunEnds | inf20-2.c:37-80 | the state such a run ends in: output, waiting smokers, and the barman past its waitpid loop exactly when all smokers have exited |
| Smokers.RunsAreFinite | inf20-2.c:37-80 | no run is longer than 12 steps for an input byte and 16 for a smoker, plus 3 |
| Smokers.CanHang | inf20-2.c:54-80 | for every input and any positive number of smokers some run prints the last item again and then hangs, a smoker and the barman waiting for ever |
| Smokers.Bar.constructor | inf20-2.c:93-104 | both semaphores 0, every smoker before its sigaction |
| Smokers.Bar.Work | inf20-2.c:41-60 | one step of the barman |
| Smokers.Bar.Smoke | inf20-2.c:65-79 | one step of a smoker |
| Smokers.Bar.RunAll | inf20-2.c:95-110 | any interleaving prints the letters and the late copies of the last item, and joins all smokers exactly when the late tests do not outnumber the free ends |
| PathStrings.DirSplitter | inf24-1.cpp:34-52 | the parts are the maximal non-empty pieces without the separator |
| PathStrings.SplitOfJoin | inf24-1.cpp:34-52 | splitting undoes joining of any non-empty separator-free parts |
| PathStrings.SplitParts | inf24-1.cpp:34-52 | every part is non-empty and separator-free, and together they are the input without its separators |
| PathStrings.SplitWhole | inf24-1.cpp:34-52 | a string without separators is one part, or none if it is empty |
| PathStrings.SplitAtSeparator | inf24-1.cpp:34-52 | a separator anywhere divides the parts into those before and those behind it |
| PathStrings.AppendsSeparator | inf24-1.cpp:63-66 | a directory without trailing separator gets one, and cutting gives the relative path back |
| PathStrings.CutsFirst | inf24-1.cpp:63-66 | behind a trailing separator the cut takes exactly the first character of the relative path |
| PathStrings.DeletesExactly | inf24-1.cpp:63-66 | cutting the directory and one character off dir/rel gives rel if and only if dir does not end with a separator |
| PathStrings.KeyIsCut | inf24-1.cpp:63-76 | for a directory with a trailing separator the stored path is the entry's without the first character: its first name loses it, or vanishes and leaves a root |
| PathStrings.KeyExactly | inf24-1.cpp:63-76 | the path stored for an entry, read by its components, is the entry's own if and only if the directory does not end with a separator |
| UnionFs.StringOrder | inf24-1.cpp:54-61 | strings are ordered by the first difference, a proper prefix first |
| UnionFs.PathOrder | inf24-1.cpp:54-61 | paths are ordered likewise by their components |
| UnionFs.StrictWeakOrdering | inf24-1.cpp:54-61 | the comparator is a strict weak ordering, as std::sort demands, and two entries are equivalent exactly when path and time agree |
| UnionFs.InsertSorts | inf24-1.cpp:78 | inserting into a sorted list keeps it sorted; one instance of what std::sort may do |
| UnionFs.Sort | inf24-1.cpp:78 | a sorted permutation of the entries |
| UnionFs.ListFile | inf24-1.cpp:72-75 | one entry is added with the path that delete_pref cuts out of its full path |
| UnionFs.ListLayer | inf24-1.cpp:72-76 | every entry of one directory and the directory itself is listed once, in any iteration order |
| UnionFs.Preprocess | inf24-1.cpp:68-80 | the index holds every entry of every directory exactly once under its stored path and is sorted, for any absolute directories |
| UnionFs.FindsNewestStored | inf24-1.cpp:54-93 | what a lookup finds is as new as any entry stored under that path, for any directories |
| UnionFs.FoundWithoutFirst | inf24-1.cpp:54-93 | below a directory with a trailing separator, a lookup of an entry's path without its first character succeeds, with an entry at least as new |
| UnionFs.StoredExactly | inf24-1.cpp:63-80 | all entries are stored under their own paths if and only if no directory with entries was given with a trailing separator |
| UnionFs.FindsExactly | inf24-1.cpp:86-93 | over any index a lookup succeeds if and only if some entry is stored under that path, for any directories |
| UnionFs.GetLastChangedName | inf24-1.cpp:86-93 | the first position with the path, or -1 |
| UnionFs.Scan | fuse_c_example/main.c:43-72 | the first layer whose entry for the path is newest, or none when no layer has it |
| UnionFs.IndexAgreesWithScan | inf24-1.cpp:86-93 | for directories without trailing separators, over any index, the lookup succeeds if and only if the scan does, with an entry of the same maximal write time, and with the same file when only one layer has it |
| UnionFs.SameFileExactly | inf24-1.cpp:54-93 | every index shows the scan's file if and only if only one layer has an entry of the maximal write time |
| UnionFs.OtherIndex | inf24-1.cpp:54-79 | with a tie some sorted index shows another file |
| UnionFs.ListCatalogue | inf24-1.cpp:128-135 | the names of one directory that have not been seen are added, each once |
| UnionFs.ReadDir | inf24-1.cpp:111-139 | -ENOENT exactly when the path is a directory in no layer; otherwise the two dots and every name of the directory in any layer exactly once |
| UnionFs.ReadDirCallback | fuse_c_example/main.c:100-141 | the same listing in one pass, without the error |
| UnionFs.ListedExactlyWhenFound | inf24-1.cpp:86-139 | for directories without trailing separators, a name is listed in a directory if and only if looking up directory/name succeeds |
| PingPong.OneInFlight | inf18-2.c:34-60 | until a thread exits at most one number is unread |
| PingPong.BothExit | inf18-2.c:34-60 | a run that cannot be continued has ended both threads and printed start-3, then alternately 5 more and 3 less; every number before the last is at most 100 and not 0, and the last is above 100 or 0 |
| PingPong.RunsAreFinite | inf18-2.c:45-58 | every run is bounded, by the net gain of 2 in two numbers |
| PingPong.ValIs | inf18-2.c:14-18 | closed form of the k-th number |
| PingPong.FitsExactly | inf18-2.c:39-54 | no addition leaves the 32-bit range if and only if start >= 3 - 2^31 |
| PingPong.Threads.constructor | inf18-2.c:64-82 | both ends of the socket pair empty, thread 1 before its first print |
| PingPong.Threads.Advance | inf18-2.c:37-58 | one step of one thread |
| PingPong.Threads.RunAll | inf18-2.c:79-84 | any interleaving ends with both threads joined and the session printed |
| ParallelMap.OwnerIsUnique | inf20-1.c:43-50 | the elements of different workers are disjoint |
| ParallelMap.OwnerExists | inf20-1.c:27-50 | every element belongs to a worker |
| ParallelMap.Shares | inf20-1.c:27-50 | a worker's elements are its block and one element behind the blocks for the first count mod procs workers |
| ParallelMap.ShareSize | inf20-1.c:27-50 | a worker has count / procs elements, or one more if it is among the first count mod procs: shares differ by at most one |
| ParallelMap.StoredOnce | inf20-1.c:43-50 | no element is stored twice in any run |
| ParallelMap.SemaphoreSuffices | inf20-1.c:57-60 | in every interleaving the buffer is the pointwise map as soon as the parent has taken the semaphore procs times |
| ParallelMap.ReturnsMap | inf20-1.c:38-67 | every run is finite, and one that cannot be continued has returned the map with all processes gone |
| ParallelMap.Pool.constructor | inf20-1.c:29-37 | shared buffer, semaphore 0, no worker forked |
| ParallelMap.Pool.Compute | inf20-1.c:43-54 | one step of a worker |
| ParallelMap.Pool.Lead | inf20-1.c:38-65 | one step of the parent |
| ParallelMap.PmapProcess | inf20-1.c:23-68 | the returned buffer is the pointwise map of func over in, for every count and positive process count |
| Utf8Counter.ParseIsLongest | inf02-5.c:26-51 | what is counted is the longest prefix made of whole well-framed units: any other such prefix is a prefix of it |
| Utf8Counter.ParsePrefix | inf02-5.c:26-51 | a stream that starts with units is parsed into them |
| Utf8Counter.Counter.GetChar | inf02-5.c:8 | the next byte, or -1 at the end |
| Utf8Counter.Counter.Checker | inf02-5.c:3-19 | 0 exactly when slides+1 continuation bytes follow, which are then consumed and the unit counted |
| Utf8Counter.Counter.Run | inf02-5.c:20-54 | the counters are the numbers of one-byte and longer units of that prefix, and the result is 0 if and only if the whole stream is such a prefix |
| Utf8Counter.EncodedTextIsCounted | inf02-5.c:20-54 | for the encoding of any code points under section 3 of RFC 3629 the result is 0 and the counts are the ASCII and the other code points |
| Utf8Counter.ValidExactly | inf02-5.c:20-54 | a stream encodes some text under section 3 of RFC 3629 if and only if it is accepted and every unit is canonical: shortest form, no surrogate, nothing above U+10FFFF, as bounds on its first two bytes |
| Utf8Counter.UnitIs | inf02-5.c:3-44 | a unit has one to four bytes; the first starts with 0 or with as many ones as there are bytes and then 0, and each later one with 10 |
| Utf8Counter.CountsAre | inf02-5.c:29-44 | the two counters are the number of one-byte units and of all others |
| Utf8Counter.EncodeIs | inf02-5.c:20-54 | the reference encoding is the table of section 3 of RFC 3629: length by range, payload bits in order |
| Utf8Counter.UnitIsAccepted | inf02-5.c:30-34 | every single well-framed unit is accepted, and rightly so if and only if it is canonical |
| Utf8Counter.OverlongIsAccepted | inf02-5.c:30-34 | 0xC0 0x80 is accepted with counts 0 and 1, and is not UTF-8 |

## Left out

Weaker than the source in a stated way:

- MutexRing.FinalValues: counts in hundredths, because binary floating point rounds 1.01 and 0.99; what `%.10g` prints is not modelled.
- Primes.IsPrime: takes the integer part of the exact root of a natural number; rounding of sqrt on doubles beyond 2^53 and negative numbers are not modelled, so low is a natural number.
- PrimeStream.OutputIsPrimes: reads and writes of a slot are atomic, in one order for both threads; int64_t and int counters do not overflow.
- ListPush.ListIntact: memory is sequentially consistent and malloc succeeds; nothing is freed while threads push, so no address recurs. The sentinel's link, which the source leaves unset, is null.
- ListPushProgram.ClearList: the recursion is a loop over the heap; stack depth is not modelled.
- FixedWidth.Render: n and format_len are natural numbers and the products fit a long long; the file is the buffer.
- Limbs.Add: limbs have 32 bits without nails, and operands are the same array or different arrays; partially overlapping regions are not modelled. mpn_add_n, mpn_sub_n and mpn_com have no body in the header; the model gives them one with the contract the callers rely on.
- MpzExpr.Eval: long has 32 bits as on the toolchain's target; a failed division stops the evaluation. The mpz_ functions of the library are modelled by the integers they compute. mpq, mpf, mixed types, infinite doubles and unary expressions of a built-in value are not modelled.
- Smokers.AllExit: char is signed, as getc's comparison with 0 needs; fork and semaphore calls succeed, and at least one smoker is started (the program starts three).
- UnionFs.IndexAgreesWithScan: a snapshot of directories without symbolic links; write times do not change between building the index and the lookup. The directories exist.
- UnionFs.SameFileExactly: for directories without trailing separators, like the agreement of index and scan; for the others UnionFs.FindsExactly and PathStrings.KeyExactly say what a lookup finds.
- PrimeStream.RunProgram: for the inputs on which the program ends; PrimeStream.FinishesExactly says that it ends on no others.
- PingPong.BothExit: a number is written and read whole, and start - 3 is computed without wrap-around.
- ParallelMap.PmapProcess: func is a function of its argument; fork succeeds; the addresses of semaphore and process ids in the mapping, and pmap_free, are not modelled.

Not modelled:

- inf19-0.c: its locks always name mutex 0, so there is no per-cell protocol.
- inf13-2.c, matrix.c: find_size and matrix_update have no unbounded correctness claim.
- inf02-1.c, inf02-2.c, inf02-4.c, inf03-2.c, inf18-0.c, inf18-1.c, prime.c, inf24-0.c, inf23-2.c: would add easier members.
- Sockets, epoll, HTTP, curl, OpenSSL, dlopen, FUSE registration, exec pipelines, argument parsing and printing: input and output only.
- getattr and read callbacks of the union file system: attribute bits and file contents.
- gmpxx.h: constructors, conversions, random state, comparisons; gmp.h: all declarations without bodies.
- The other headers of the toolchain: declarations and constants.
