/**
 The barman and the smokers of inf20-2.c.  The barman hands one letter at a time to
 whichever smoker takes it, through the semaphores `take` and `give`; at the end of the
 input it sends every smoker SIGTERM and wakes it.  Every semaphore operation, access to
 the shared item, test of `checker` and signal is a step of its own, and a signal may be
 handled at any time after it was sent.
 */
module Smokers {
  import opened Arithmetic
  import opened Runs

  type Byte = x: int | 0 <= x < 256

  /** `count` smokers (3 in the program) read `input`. */
  datatype Config = Config(input: seq<Byte>, count: nat)

  datatype Barman =
    | Reading
    | Writing(c: Byte)   // info->item = toupper(c)
    | Offering           // sem_post (&info->take)
    | Giving             // sem_wait (&info->give)
    | Killing(next: nat)
    | Posting(next: nat)
    | KillingAgain(next: nat)
    | Joining(next: nat)

  datatype Stage =
    | Starting           // before sigaction
    | Checking           // while (checker)
    | Waiting            // sem_wait (&info->take)
    | Taken              // if (checker == 0) break
    | Printing
    | Returning          // sem_post (&info->give)
    | Exited

  datatype Smoker = Smoker(stage: Stage, checker: bool, pending: bool)

  /**
   The last two are history.  `late` counts the tests at which a smoker that has taken a
   token goes on to print although a signal is pending; `free` counts the smokers that
   ended without taking a token for it.
   */
  datatype State = State(
    rest: seq<Byte>, item: Byte, take: nat, give: nat,
    barman: Barman, smokers: seq<Smoker>, printed: seq<Byte>,
    late: nat, free: nat)

  datatype Move = Serve | Smoke(i: nat) | Handle(i: nat)

  function Init(c: Config): State {
    State(c.input, 0, 0, 0, Reading, seq(c.count, _ => Smoker(Starting, true, false)), [], 0, 0)
  }

  /** isalpha and toupper on the non-negative values of a char */
  predicate IsLetter(c: Byte) {
    65 <= c <= 90 || 97 <= c <= 122
  }

  function Upper(c: Byte): Byte {
    if 97 <= c <= 122 then c - 32 else c
  }

  /** A char holds getc's result: end of file and bytes from 128 on are negative. */
  predicate AtEnd(rest: seq<Byte>) {
    rest == [] || rest[0] >= 128
  }

  /** printf ("%c ", item) */
  function Shown(item: Byte): seq<Byte> {
    [item, 32]
  }

  /** What the smokers are to print for the input. */
  function Wanted(rest: seq<Byte>): seq<Byte> {
    if AtEnd(rest) then []
    else if IsLetter(rest[0]) then Shown(Upper(rest[0])) + Wanted(rest[1..])
    else Wanted(rest[1..])
  }

  // ----- the letters of the output -----

  const LOWER_CASE := "abcdefghijklmnopqrstuvwxyz"
  const UPPER_CASE := "ABCDEFGHIJKLMNOPQRSTUVWXYZ"

  /** c is the letter number k, in either case. */
  predicate Letter(c: Byte, k: nat) {
    k < 26 && (c == LOWER_CASE[k] as int || c == UPPER_CASE[k] as int)
  }

  lemma LowerCase(k: nat)
    requires k < 26
    ensures LOWER_CASE[k] as int == 97 + k
  {
  }

  lemma UpperCase(k: nat)
    requires k < 26
    ensures UPPER_CASE[k] as int == 65 + k
  {
  }

  lemma LetterIs(c: Byte, k: nat)
    ensures Letter(c, k) <==> k < 26 && (c == 97 + k || c == 65 + k)
  {
    if k < 26 {
      LowerCase(k);
      UpperCase(k);
    }
  }

  /** The bytes passed on are the 52 letters, and either case of one becomes its upper case. */
  lemma LettersAre(c: Byte)
    ensures IsLetter(c) <==> exists k: nat :: Letter(c, k)
    ensures forall k: nat | Letter(c, k) :: Upper(c) == UPPER_CASE[k] as int
  {
    forall k: nat | Letter(c, k) ensures IsLetter(c) && Upper(c) == UPPER_CASE[k] as int {
      LetterIs(c, k);
      UpperCase(k);
    }
    if IsLetter(c) {
      LetterIs(c, Upper(c) - 65);
    }
  }

  /** Byte i is the letter number k, and neither it nor a byte before it ends the input. */
  predicate LetterAt(input: seq<Byte>, i: nat, k: nat) {
    i < |input| && Letter(input[i], k) && forall j | 0 <= j <= i :: input[j] < 128
  }

  ghost predicate IsLetterAt(input: seq<Byte>, i: nat) {
    exists k: nat :: LetterAt(input, i, k)
  }

  predicate Ascending(at: seq<nat>) {
    forall a, b | 0 <= a < b < |at| :: at[a] < at[b]
  }

  /** `at` lists the places of the letters in order. */
  ghost predicate Places(input: seq<Byte>, at: seq<nat>) {
    Ascending(at) && forall i: nat :: i in at <==> IsLetterAt(input, i)
  }

  /** `output` holds two bytes for each of them: its upper case and a space. */
  ghost predicate Spells(input: seq<Byte>, at: seq<nat>, output: seq<Byte>) {
    && |output| == 2 * |at|
    && (forall a: nat, k: nat | a < |at| && LetterAt(input, at[a], k) ::
          output[2 * a] == UPPER_CASE[k] as int && output[2 * a + 1] == 32)
  }

  function Shifted(at: seq<nat>): (r: seq<nat>)
    ensures |r| == |at| && forall a | 0 <= a < |at| :: r[a] == at[a] + 1
  {
    seq(|at|, a requires 0 <= a < |at| => at[a] + 1)
  }

  lemma LaterLetter(input: seq<Byte>, i: nat, k: nat)
    requires !AtEnd(input) && i > 0
    ensures LetterAt(input, i, k) <==> LetterAt(input[1..], i-1, k)
  {
    if LetterAt(input[1..], i-1, k) {
      forall j | 0 <= j <= i ensures input[j] < 128 {
        assert j > 0 ==> input[1..][j-1] == input[j];
      }
    }
  }

  lemma LaterPlace(input: seq<Byte>, i: nat)
    requires !AtEnd(input) && i > 0
    ensures IsLetterAt(input, i) <==> IsLetterAt(input[1..], i-1)
  {
    if k: nat :| LetterAt(input, i, k) {
      LaterLetter(input, i, k);
    }
    var later, j: nat := input[1..], i - 1;
    if k: nat :| LetterAt(later, j, k) {
      LaterLetter(input, i, k);
    }
  }

  lemma PlacesStep(input: seq<Byte>, first: seq<nat>, later: seq<nat>)
    requires !AtEnd(input) && Places(input[1..], later)
    requires first == if IsLetterAt(input, 0) then [0] else []
    ensures Places(input, first + Shifted(later))
  {
    forall i: nat ensures i in first + Shifted(later) <==> IsLetterAt(input, i) {
      ShiftedIn(later, i);
      if i > 0 {
        LaterPlace(input, i);
      }
    }
    ShiftedAscends(first, later);
  }

  lemma ShiftedAscends(first: seq<nat>, later: seq<nat>)
    requires (first == [] || first == [0]) && Ascending(later)
    ensures Ascending(first + Shifted(later))
  {
  }

  lemma ShiftedIn(at: seq<nat>, i: nat)
    ensures i in Shifted(at) <==> i > 0 && i - 1 in at
  {
    if i > 0 && i - 1 in at {
      var a :| 0 <= a < |at| && at[a] == i - 1;
      assert Shifted(at)[a] == i;
    }
  }

  lemma SpellsStep(input: seq<Byte>, first: seq<nat>, later: seq<nat>, head: seq<Byte>, output: seq<Byte>)
    requires !AtEnd(input) && Spells(input[1..], later, output)
    requires (first == [] && head == []) || (first == [0] && head == Shown(Upper(input[0])))
    ensures Spells(input, first + Shifted(later), head + output)
  {
    var at := first + Shifted(later);
    forall a: nat, k: nat | a < |at| && LetterAt(input, at[a], k)
      ensures (head + output)[2 * a] == UPPER_CASE[k] as int && (head + output)[2 * a + 1] == 32
    {
      if a < |first| {
        LettersAre(input[0]);
      } else {
        LaterLetter(input, at[a], k);
        assert (head + output)[2 * a] == output[2 * (a - |first|)];
        assert (head + output)[2 * a + 1] == output[2 * (a - |first|) + 1];
      }
    }
  }

  /** The wanted output: every letter up to the end of the input, in upper case and followed by a space. */
  lemma {:induction false} WantedIs(input: seq<Byte>) returns (at: seq<nat>)
    ensures Places(input, at) && Spells(input, at, Wanted(input))
  {
    if AtEnd(input) {
      at := [];
      assert input == [] || !(input[0] < 128);
    } else {
      var later := WantedIs(input[1..]);
      var first := if IsLetter(input[0]) then [0] else [];
      LettersAre(input[0]);
      assert forall k: nat :: LetterAt(input, 0, k) <==> Letter(input[0], k);
      assert IsLetterAt(input, 0) <==> IsLetter(input[0]);
      PlacesStep(input, first, later);
      SpellsStep(input, first, later, if IsLetter(input[0]) then Shown(Upper(input[0])) else [], Wanted(input[1..]));
      at := first + Shifted(later);
      assert [] + Wanted(input[1..]) == Wanted(input[1..]);
    }
  }

  /** kill (pid, SIGTERM) */
  function Signalled(ss: seq<Smoker>, i: nat): (r: seq<Smoker>)
    requires i < |ss|
  {
    if ss[i].stage.Exited? then ss else ss[i := ss[i].(pending := true)]
  }

  function BarmanStep(s: State): Option<State> {
    match s.barman
    case Reading =>
      Some(
        if AtEnd(s.rest) then s.(barman := Killing(0))
        else s.(rest := s.rest[1..], barman := if IsLetter(s.rest[0]) then Writing(s.rest[0]) else Reading))
    case Writing(letter) => Some(s.(item := Upper(letter), barman := Offering))
    case Offering => Some(s.(take := s.take + 1, barman := Giving))
    case Giving => if s.give > 0 then Some(s.(give := s.give - 1, barman := Reading)) else None
    case Killing(i) =>
      Some(if i < |s.smokers| then s.(smokers := Signalled(s.smokers, i), barman := Killing(i + 1))
           else s.(barman := Posting(0)))
    case Posting(i) =>
      Some(if i < |s.smokers| then s.(take := s.take + 1, barman := KillingAgain(i))
           else s.(barman := Joining(0)))
    case KillingAgain(i) =>
      if i < |s.smokers| then Some(s.(smokers := Signalled(s.smokers, i), barman := Posting(i + 1))) else None
    case Joining(i) =>
      if i < |s.smokers| && s.smokers[i].stage.Exited? then Some(s.(barman := Joining(i + 1))) else None
  }

  /** The token was meant to end the smoker, which has been sent a signal but goes on. */
  predicate Late(x: Smoker) {
    x.stage.Taken? && x.checker && x.pending
  }

  function SmokerStep(s: State, i: nat): Option<State>
    requires i < |s.smokers|
  {
    var x := s.smokers[i];
    match x.stage
    case Starting => Some(s.(smokers := s.smokers[i := x.(stage := Checking)]))
    case Checking =>
      Some(
        if x.checker then s.(smokers := s.smokers[i := x.(stage := Waiting)])
        else s.(smokers := s.smokers[i := x.(stage := Exited)], free := s.free + 1))
    case Waiting =>
      if s.take > 0 then Some(s.(take := s.take - 1, smokers := s.smokers[i := x.(stage := Taken)])) else None
    case Taken =>
      Some(s.(smokers := s.smokers[i := x.(stage := if x.checker then Printing else Exited)],
              late := s.late + if Late(x) then 1 else 0))
    case Printing => Some(s.(printed := s.printed + Shown(s.item), smokers := s.smokers[i := x.(stage := Returning)]))
    case Returning => Some(s.(give := s.give + 1, smokers := s.smokers[i := x.(stage := Checking)]))
    case Exited => None
  }

  /** The handler clears `checker`; before it is installed the signal ends the process. */
  function HandleStep(s: State, i: nat): Option<State>
    requires i < |s.smokers|
  {
    var x := s.smokers[i];
    if x.stage.Exited? || !x.pending then None
    else if x.stage.Starting? then
      Some(s.(smokers := s.smokers[i := x.(stage := Exited, pending := false)], free := s.free + 1))
    else Some(s.(smokers := s.smokers[i := x.(checker := false, pending := false)]))
  }

  function Next(s: State, m: Move): Option<State> {
    match m
    case Serve => BarmanStep(s)
    case Smoke(i) => if i < |s.smokers| then SmokerStep(s, i) else None
    case Handle(i) => if i < |s.smokers| then HandleStep(s, i) else None
  }

  function Step(): (State, Move) -> Option<State> {
    (s: State, m: Move) => Next(s, m)
  }

  // ----- counting smokers -----

  function One(x: Smoker, which: set<Stage>): nat {
    if x.stage in which then 1 else 0
  }

  function Count(ss: seq<Smoker>, n: nat, which: set<Stage>): nat
    requires n <= |ss|
  {
    if n == 0 then 0 else Count(ss, n-1, which) + One(ss[n-1], which)
  }

  lemma {:induction false} CountAfter(ss: seq<Smoker>, n: nat, i: nat, x: Smoker, which: set<Stage>)
    requires n <= |ss| && i < |ss|
    ensures Count(ss[i := x], n, which)
         == Count(ss, n, which) + if i < n then One(x, which) - One(ss[i], which) else 0
  {
    if n > 0 {
      CountAfter(ss, n-1, i, x, which);
    }
  }

  lemma {:induction false} CountedIsSome(ss: seq<Smoker>, n: nat, which: set<Stage>) returns (i: nat)
    requires n <= |ss| && Count(ss, n, which) > 0
    ensures i < n && ss[i].stage in which
  {
    if ss[n-1].stage in which {
      i := n - 1;
    } else {
      i := CountedIsSome(ss, n-1, which);
    }
  }

  lemma {:induction false} SomeIsCounted(ss: seq<Smoker>, n: nat, i: nat, which: set<Stage>)
    requires i < n <= |ss| && ss[i].stage in which
    ensures Count(ss, n, which) > 0
  {
    if i < n - 1 {
      SomeIsCounted(ss, n-1, i, which);
    }
  }

  lemma {:induction false} NoneCounted(ss: seq<Smoker>, n: nat, which: set<Stage>)
    requires n <= |ss| && forall i | 0 <= i < n :: ss[i].stage !in which
    ensures Count(ss, n, which) == 0
  {
    if n > 0 {
      NoneCounted(ss, n-1, which);
    }
  }

  lemma {:induction false} AllCounted(ss: seq<Smoker>, n: nat)
    requires n <= |ss| && forall i | 0 <= i < n :: ss[i].stage.Exited? || ss[i].stage.Waiting?
    ensures Count(ss, n, {Exited}) + Count(ss, n, {Waiting}) == n
  {
    if n > 0 {
      AllCounted(ss, n-1);
    }
  }

  function Number(s: State, which: set<Stage>): nat {
    Count(s.smokers, |s.smokers|, which)
  }

  lemma NumberAfter(s: State, s': State, i: nat, which: set<Stage>)
    requires i < |s.smokers| == |s'.smokers| && s'.smokers == s.smokers[i := s'.smokers[i]]
    ensures Number(s', which) == Number(s, which) + One(s'.smokers[i], which) - One(s.smokers[i], which)
  {
    CountAfter(s.smokers, |s.smokers|, i, s'.smokers[i], which);
  }

  /** The smokers that hold the token. */
  function Holding(s: State): nat {
    Number(s, {Taken, Printing, Returning})
  }

  /** The smokers that hold the token and have not printed the item. */
  function Unprinted(s: State): nat {
    Number(s, {Taken, Printing})
  }

  // ----- the invariant -----

  predicate Serving(s: State) {
    s.barman.Reading? || s.barman.Writing? || s.barman.Offering? || s.barman.Giving?
  }

  /** What has been read and not yet printed. */
  function Owed(s: State): seq<Byte> {
    match s.barman
    case Writing(letter) => Shown(Upper(letter))
    case Offering => Shown(s.item)
    case Giving => if s.take + Unprinted(s) > 0 then Shown(s.item) else []
    case _ => []
  }

  /** While the barman serves there is one token when it waits for it, and none otherwise. */
  ghost predicate ServingInv(c: Config, s: State) {
    && (forall i | 0 <= i < |s.smokers| :: s.smokers[i].checker && !s.smokers[i].pending && !s.smokers[i].stage.Exited?)
    && s.take + s.give + Holding(s) == (if s.barman.Giving? then 1 else 0)
    && s.printed + Owed(s) + Wanted(s.rest) == Wanted(c.input)
    && s.late == s.free == 0
  }

  /** What n late smokers print: the last item again and again. */
  function Copies(item: Byte, n: nat): seq<Byte> {
    if n == 0 then [] else Copies(item, n-1) + Shown(item)
  }

  /** How many smokers have been sent the signal. */
  function Told(s: State): nat {
    if s.barman.Killing? then s.barman.next else |s.smokers|
  }

  predicate Informed(x: Smoker) {
    x.pending || !x.checker || x.stage.Exited?
  }

  /** How many tokens the barman has posted to end the smokers. */
  function Posts(s: State): nat {
    match s.barman
    case Posting(i) => i
    case KillingAgain(i) => i + 1
    case Joining(_) => |s.smokers|
    case _ => 0
  }

  ghost predicate NoneHolds(s: State) {
    forall i | 0 <= i < |s.smokers| :: s.smokers[i].stage !in {Taken, Printing, Returning}
  }

  ghost predicate SmokersClosing(s: State) {
    && (forall i | 0 <= i < |s.smokers| && i < Told(s) :: Informed(s.smokers[i]))
    && (s.barman.Killing? ==> s.take == s.late == 0 && NoneHolds(s))
    && (s.barman.Joining? ==> forall i | 0 <= i < |s.smokers| && i < s.barman.next :: s.smokers[i].stage.Exited?)
  }

  /** Every late smoker prints the item once more and gives its token back. */
  ghost predicate OutputClosing(c: Config, s: State) {
    && Number(s, {Printing}) <= s.late
    && s.printed == Wanted(c.input) + Copies(s.item, s.late - Number(s, {Printing}))
    && s.give + Number(s, {Printing}) + Number(s, {Returning}) == s.late
  }

  /** Every posted token is there, in a smoker's hands, wasted by a late one, or has ended a smoker. */
  ghost predicate TokensClosing(s: State) {
    && s.take + Number(s, {Taken}) + s.late + Number(s, {Exited}) == Posts(s) + s.free
    && s.free <= Number(s, {Exited})
  }

  ghost predicate ClosingInv(c: Config, s: State) {
    && (if s.barman.KillingAgain? then s.barman.next < |s.smokers|
        else !Serving(s) && s.barman.next <= |s.smokers|)
    && SmokersClosing(s) && OutputClosing(c, s) && TokensClosing(s)
  }

  ghost predicate Inv(c: Config, s: State) {
    |s.smokers| == c.count && if Serving(s) then ServingInv(c, s) else ClosingInv(c, s)
  }

  lemma InitInv(c: Config)
    ensures Inv(c, Init(c))
  {
    NoneCounted(Init(c).smokers, c.count, {Taken, Printing, Returning});
  }

  lemma {:induction false} HoldingCoversUnprinted(ss: seq<Smoker>, n: nat)
    requires n <= |ss|
    ensures Count(ss, n, {Taken, Printing}) <= Count(ss, n, {Taken, Printing, Returning})
  {
    if n > 0 {
      HoldingCoversUnprinted(ss, n-1);
    }
  }

  /** At the end of the input no smoker holds a token and none has ended. */
  lemma ShutdownBegins(c: Config, s: State)
    requires Inv(c, s) && s.barman.Reading? && AtEnd(s.rest)
    ensures Inv(c, BarmanStep(s).value)
  {
    forall i | 0 <= i < |s.smokers| ensures s.smokers[i].stage !in {Taken, Printing, Returning} {
      if s.smokers[i].stage in {Taken, Printing, Returning} {
        SomeIsCounted(s.smokers, |s.smokers|, i, {Taken, Printing, Returning});
      }
    }
    NoneCounted(s.smokers, |s.smokers|, {Printing});
    NoneCounted(s.smokers, |s.smokers|, {Returning});
    NoneCounted(s.smokers, |s.smokers|, {Taken});
    NoneCounted(s.smokers, |s.smokers|, {Exited});
  }

  lemma BarmanKeepsServing(c: Config, s: State)
    requires Inv(c, s) && Serving(s) && BarmanStep(s).Some?
    ensures Inv(c, BarmanStep(s).value)
  {
    if s.barman.Offering? || s.barman.Giving? {
      HoldingCoversUnprinted(s.smokers, |s.smokers|);
    }
    if s.barman.Reading? && AtEnd(s.rest) {
      ShutdownBegins(c, s);
    }
  }

  lemma BarmanKeepsClosing(c: Config, s: State)
    requires Inv(c, s) && !Serving(s) && BarmanStep(s).Some?
    ensures Inv(c, BarmanStep(s).value)
  {
    if s.barman.next < |s.smokers| && (s.barman.Killing? || s.barman.KillingAgain?) {
      KillKeepsNumbers(s, BarmanStep(s).value, s.barman.next);
    }
  }

  /** A signal changes no stage. */
  lemma KillKeepsNumbers(s: State, s': State, i: nat)
    requires i < |s.smokers| && s'.smokers == Signalled(s.smokers, i)
    ensures |s'.smokers| == |s.smokers|
    ensures Number(s', {Printing}) == Number(s, {Printing}) && Number(s', {Returning}) == Number(s, {Returning})
    ensures Number(s', {Taken}) == Number(s, {Taken}) && Number(s', {Exited}) == Number(s, {Exited})
  {
    SignalKeepsStages(s.smokers, i, {Printing});
    SignalKeepsStages(s.smokers, i, {Returning});
    SignalKeepsStages(s.smokers, i, {Taken});
    SignalKeepsStages(s.smokers, i, {Exited});
  }

  lemma SignalKeepsStages(ss: seq<Smoker>, i: nat, which: set<Stage>)
    requires i < |ss|
    ensures |Signalled(ss, i)| == |ss| && Count(Signalled(ss, i), |ss|, which) == Count(ss, |ss|, which)
  {
    CountAfter(ss, |ss|, i, ss[i].(pending := true), which);
  }

  /** The token moves on and is not copied. */
  lemma SmokerKeepsToken(c: Config, s: State, i: nat)
    requires Inv(c, s) && Serving(s) && i < |s.smokers| && SmokerStep(s, i).Some?
    ensures var s' := SmokerStep(s, i).value;
      s'.take + s'.give + Holding(s') == s.take + s.give + Holding(s)
    ensures s.smokers[i].stage in {Taken, Printing, Returning} ==> s.barman.Giving? && s.take + s.give == 0
  {
    CountAfter(s.smokers, |s.smokers|, i, SmokerStep(s, i).value.smokers[i], {Taken, Printing, Returning});
    if s.smokers[i].stage in {Taken, Printing, Returning} {
      SomeIsCounted(s.smokers, |s.smokers|, i, {Taken, Printing, Returning});
    }
  }

  /** An item is owed until it has been printed. */
  lemma SmokerKeepsOutput(c: Config, s: State, i: nat)
    requires Inv(c, s) && Serving(s) && i < |s.smokers| && SmokerStep(s, i).Some?
    ensures SmokerStep(s, i).value.printed + Owed(SmokerStep(s, i).value) == s.printed + Owed(s)
  {
    SmokerKeepsToken(c, s, i);
    var s' := SmokerStep(s, i).value;
    NumberAfter(s, s', i, {Taken, Printing});
    HoldingCoversUnprinted(s.smokers, |s.smokers|);
    HoldingCoversUnprinted(s'.smokers, |s.smokers|);
    if s.smokers[i].stage in {Taken, Printing} {
      SomeIsCounted(s.smokers, |s.smokers|, i, {Taken, Printing});
    }
  }

  lemma SmokerKeepsServing(c: Config, s: State, i: nat)
    requires Inv(c, s) && Serving(s) && i < |s.smokers| && SmokerStep(s, i).Some?
    ensures Inv(c, SmokerStep(s, i).value)
  {
    SmokerKeepsToken(c, s, i);
    SmokerKeepsOutput(c, s, i);
  }

  /** In the shutdown a smoker that goes on to print is late. */
  lemma TakenIsInformed(c: Config, s: State, i: nat)
    requires Inv(c, s) && !Serving(s) && i < |s.smokers| && s.smokers[i].stage.Taken?
    ensures s.smokers[i].checker ==> Late(s.smokers[i])
  {
  }

  /** What is printed in the shutdown: an early smoker would add to it. */
  lemma SmokerKeepsOutputClosing(c: Config, s: State, i: nat)
    requires OutputClosing(c, s) && i < |s.smokers| && SmokerStep(s, i).Some?
    requires s.smokers[i].stage.Taken? && s.smokers[i].checker ==> Late(s.smokers[i])
    ensures OutputClosing(c, SmokerStep(s, i).value)
  {
    var s' := SmokerStep(s, i).value;
    NumberAfter(s, s', i, {Printing});
    NumberAfter(s, s', i, {Returning});
    if s.smokers[i].stage.Printing? {
      SomeIsCounted(s.smokers, |s.smokers|, i, {Printing});
      OneMoreCopy(c, s.printed, s.item, s.late - Number(s, {Printing}));
    }
  }

  lemma OneMoreCopy(c: Config, printed: seq<Byte>, item: Byte, n: nat)
    requires printed == Wanted(c.input) + Copies(item, n)
    ensures printed + Shown(item) == Wanted(c.input) + Copies(item, n + 1)
  {
  }

  lemma SmokerKeepsTokensClosing(s: State, i: nat)
    requires TokensClosing(s) && !Serving(s) && i < |s.smokers| && SmokerStep(s, i).Some?
    requires s.smokers[i].stage.Taken? && s.smokers[i].checker ==> Late(s.smokers[i])
    ensures TokensClosing(SmokerStep(s, i).value)
  {
    var s' := SmokerStep(s, i).value;
    NumberAfter(s, s', i, {Taken});
    NumberAfter(s, s', i, {Exited});
    assert Posts(s') == Posts(s);
  }

  lemma SmokerKeepsSmokersClosing(s: State, i: nat)
    requires SmokersClosing(s) && !Serving(s) && i < |s.smokers| && SmokerStep(s, i).Some?
    ensures SmokersClosing(SmokerStep(s, i).value)
  {
  }

  lemma SmokerKeepsClosing(c: Config, s: State, i: nat)
    requires Inv(c, s) && !Serving(s) && i < |s.smokers| && SmokerStep(s, i).Some?
    ensures Inv(c, SmokerStep(s, i).value)
  {
    if s.smokers[i].stage.Taken? {
      TakenIsInformed(c, s, i);
    }
    SmokerKeepsOutputClosing(c, s, i);
    SmokerKeepsTokensClosing(s, i);
    SmokerKeepsSmokersClosing(s, i);
  }

  lemma HandlerKeepsInv(c: Config, s: State, i: nat)
    requires Inv(c, s) && i < |s.smokers| && HandleStep(s, i).Some?
    ensures Inv(c, HandleStep(s, i).value)
  {
    var s' := HandleStep(s, i).value;
    NumberAfter(s, s', i, {Printing});
    NumberAfter(s, s', i, {Returning});
    NumberAfter(s, s', i, {Taken});
    NumberAfter(s, s', i, {Exited});
  }

  lemma StepKeepsInv(c: Config, s: State, m: Move)
    requires Inv(c, s) && Step()(s, m).Some?
    ensures Inv(c, Step()(s, m).value)
  {
    match m
    case Serve =>
      if Serving(s) {
        BarmanKeepsServing(c, s);
      } else {
        BarmanKeepsClosing(c, s);
      }
    case Smoke(i) =>
      if Serving(s) {
        SmokerKeepsServing(c, s, i);
      } else {
        SmokerKeepsClosing(c, s, i);
      }
    case Handle(i) => HandlerKeepsInv(c, s, i);
  }

  lemma StepsKeepInv(c: Config)
    ensures Preserved(Step(), (x: State) => Inv(c, x))
  {
    forall x, m | Inv(c, x) && Step()(x, m).Some? ensures Inv(c, Step()(x, m).value) {
      StepKeepsInv(c, x, m);
    }
  }

  lemma ReachableInv(c: Config, s: State)
    requires Reachable(Init(c), Step(), s)
    ensures Inv(c, s)
  {
    InitInv(c);
    StepsKeepInv(c);
    Always(Init(c), Step(), x => Inv(c, x), s);
  }

  // ----- main results -----

  /** One token: before the shutdown, take, give and the smokers share exactly one while the barman waits. */
  lemma OneToken(c: Config, s: State)
    requires Reachable(Init(c), Step(), s) && Serving(s)
    ensures s.take + s.give + Holding(s) == if s.barman.Giving? then 1 else 0
  {
    ReachableInv(c, s);
  }

  /** So the shared item is only written when every letter before it has been printed, ... */
  lemma NoOverwrite(c: Config, s: State)
    requires Reachable(Init(c), Step(), s) && s.barman.Writing?
    ensures s.take == 0 && Unprinted(s) == 0
    ensures s.printed + Shown(Upper(s.barman.c)) + Wanted(s.rest) == Wanted(c.input)
  {
    ReachableInv(c, s);
    HoldingCoversUnprinted(s.smokers, |s.smokers|);
  }

  /** ... the output is a prefix of the letters until the shutdown, and only late smokers add to it then. */
  lemma OutputIsLetters(c: Config, s: State)
    requires Reachable(Init(c), Step(), s)
    ensures Serving(s) ==> s.printed <= Wanted(c.input)
    ensures !Serving(s) ==> OutputClosing(c, s)
  {
    ReachableInv(c, s);
    if Serving(s) {
      assert Wanted(c.input)[..|s.printed|] == s.printed;
    }
  }

  /** The item shown last in an output, which is 0 before the first. */
  function LastItem(output: seq<Byte>): Byte {
    if |output| < 2 then 0 else output[|output|-2]
  }

  ghost predicate ItemInv(c: Config, s: State) {
    && Inv(c, s)
    && (Serving(s) && (s.barman.Writing? || Owed(s) == []) ==> s.item == LastItem(s.printed))
    && (!Serving(s) ==> s.item == LastItem(Wanted(c.input)))
  }

  lemma ItemAfterWork(c: Config, s: State)
    requires ItemInv(c, s) && BarmanStep(s).Some?
    ensures ItemInv(c, BarmanStep(s).value)
  {
    StepKeepsInv(c, s, Serve);
    HoldingCoversUnprinted(s.smokers, |s.smokers|);
    if s.barman.Reading? && AtEnd(s.rest) {
      assert s.printed == Wanted(c.input);
    }
  }

  lemma ItemAfterSmoke(c: Config, s: State, i: nat)
    requires ItemInv(c, s) && i < |s.smokers| && SmokerStep(s, i).Some?
    ensures ItemInv(c, SmokerStep(s, i).value)
  {
    StepKeepsInv(c, s, Smoke(i));
    var s' := SmokerStep(s, i).value;
    if Serving(s) {
      SmokerKeepsOutput(c, s, i);
      if s.smokers[i].stage.Printing? {
        assert LastItem(s.printed + Shown(s.item)) == s.item;
      } else {
        assert s'.printed == s.printed;
        assert Owed(s') == s'.printed[|s'.printed|..] + Owed(s') == Owed(s);
      }
    }
  }

  lemma ItemAfterSignal(c: Config, s: State, i: nat)
    requires ItemInv(c, s) && i < |s.smokers| && HandleStep(s, i).Some?
    ensures ItemInv(c, HandleStep(s, i).value)
  {
    StepKeepsInv(c, s, Handle(i));
  }

  lemma ItemIsKept(c: Config)
    ensures Preserved(Step(), (x: State) => ItemInv(c, x))
  {
    forall x, m | ItemInv(c, x) && Step()(x, m).Some? ensures ItemInv(c, Step()(x, m).value) {
      match m
      case Serve => ItemAfterWork(c, x);
      case Smoke(i) => ItemAfterSmoke(c, x, i);
      case Handle(i) => ItemAfterSignal(c, x, i);
    }
  }

  lemma ReachableItem(c: Config, s: State)
    requires Reachable(Init(c), Step(), s)
    ensures ItemInv(c, s)
  {
    InitInv(c);
    ItemIsKept(c);
    Always(Init(c), Step(), x => ItemInv(c, x), s);
  }

  /** What late smokers print again is the last letter, or a zero byte if the input has no letter. */
  lemma ItemIsLast(c: Config, s: State)
    requires Reachable(Init(c), Step(), s) && !Serving(s)
    ensures var letters := Wanted(c.input);
      if |letters| < 2 then s.item == 0 else s.item == letters[|letters|-2]
  {
    ReachableItem(c, s);
  }

  predicate Done(s: State) {
    s.barman.Joining? && s.barman.next == |s.smokers|
  }

  lemma ServingMoves(c: Config, s: State) returns (m: Move)
    requires c.count > 0 && Inv(c, s) && Serving(s)
    ensures Step()(s, m).Some?
  {
    m := Serve;
    if BarmanStep(s).None? {
      var i: nat := 0;
      if s.take == 0 {
        i := CountedIsSome(s.smokers, |s.smokers|, {Taken, Printing, Returning});
      }
      m := Smoke(i);
    }
  }

  /** A smoker that cannot move has exited, or waits without a token and without a signal to handle. */
  lemma StuckSmoker(s: State, i: nat)
    requires Stuck(Step(), s) && i < |s.smokers|
    ensures s.smokers[i].stage.Exited? || (s.smokers[i].stage.Waiting? && s.take == 0)
  {
    assert Step()(s, Smoke(i)).None?;
  }

  /** Where a run can end: the barman in its last loop, the smokers exited or waiting in vain. */
  lemma StuckShape(c: Config, s: State)
    requires c.count > 0 && Inv(c, s) && Stuck(Step(), s)
    ensures s.barman.Joining? && ClosingInv(c, s)
    ensures Number(s, {Taken}) == Number(s, {Printing}) == Number(s, {Returning}) == 0
    ensures Number(s, {Exited}) + Number(s, {Waiting}) == c.count
    ensures Number(s, {Waiting}) > 0 ==> s.take == 0
  {
    if Serving(s) {
      var m := ServingMoves(c, s);
    }
    assert Step()(s, Serve).None?;
    forall i | 0 <= i < |s.smokers|
      ensures s.smokers[i].stage.Exited? || (s.smokers[i].stage.Waiting? && s.take == 0)
    {
      StuckSmoker(s, i);
    }
    NoneCounted(s.smokers, |s.smokers|, {Taken});
    NoneCounted(s.smokers, |s.smokers|, {Printing});
    NoneCounted(s.smokers, |s.smokers|, {Returning});
    AllCounted(s.smokers, |s.smokers|);
    if Number(s, {Waiting}) > 0 {
      var i := CountedIsSome(s.smokers, |s.smokers|, {Waiting});
    }
  }

  /** The copies are n pairs of the item and a space. */
  lemma {:induction false} CopiesAre(item: Byte, n: nat)
    ensures |Copies(item, n)| == 2 * n
    ensures forall j: nat | j < n :: Copies(item, n)[2 * j] == item && Copies(item, n)[2 * j + 1] == 32
  {
    if n > 0 {
      CopiesAre(item, n-1);
    }
  }

  ghost predicate AllExited(s: State) {
    forall i | 0 <= i < |s.smokers| :: s.smokers[i].stage.Exited?
  }

  /**
   What a run that cannot be continued has come to.  Each late smoker prints the last item
   once more and wastes a token; a smoker that ends without a token makes up for one.
   */
  lemma RunEnds(c: Config, s: State)
    requires c.count > 0 && Inv(c, s) && Stuck(Step(), s)
    ensures s.printed == Wanted(c.input) + Copies(s.item, s.late)
    ensures s.printed == Wanted(c.input) <==> s.late == 0
    ensures Number(s, {Waiting}) == AtLeastZero(s.late - s.free)
    ensures AllExited(s) <==> s.late <= s.free
    ensures AllExited(s) <==> Done(s)
  {
    StuckShape(c, s);
    CopiesAre(s.item, s.late);
    assert Step()(s, Serve).None?;
    if Number(s, {Waiting}) > 0 {
      var i := CountedIsSome(s.smokers, |s.smokers|, {Waiting});
    } else {
      forall i | 0 <= i < |s.smokers| ensures s.smokers[i].stage.Exited? {
        StuckSmoker(s, i);
        if s.smokers[i].stage.Waiting? {
          SomeIsCounted(s.smokers, |s.smokers|, i, {Waiting});
        }
      }
    }
  }

  /** The steps of a run at which a smoker passes its test with a signal pending. */
  ghost function LateSteps(c: Config, sched: seq<Move>): nat {
    if sched == [] then 0
    else
      var before := Exec(Init(c), Step(), sched[..|sched|-1]);
      LateSteps(c, sched[..|sched|-1]) + if before.Some? && IsLate(before.value, sched[|sched|-1]) then 1 else 0
  }

  predicate IsLate(s: State, m: Move) {
    m.Smoke? && m.i < |s.smokers| && Late(s.smokers[m.i])
  }

  /** The steps at which a smoker ends without having taken a token: at its loop test, or killed at its start. */
  ghost function FreeSteps(c: Config, sched: seq<Move>): nat {
    if sched == [] then 0
    else
      var before := Exec(Init(c), Step(), sched[..|sched|-1]);
      FreeSteps(c, sched[..|sched|-1]) + if before.Some? && IsFree(before.value, sched[|sched|-1]) then 1 else 0
  }

  predicate IsFree(s: State, m: Move) {
    match m
    case Serve => false
    case Smoke(i) => i < |s.smokers| && s.smokers[i].stage.Checking? && !s.smokers[i].checker
    case Handle(i) => i < |s.smokers| && s.smokers[i].stage.Starting? && s.smokers[i].pending
  }

  lemma StepCounts(s: State, m: Move)
    requires Next(s, m).Some?
    ensures Next(s, m).value.late == s.late + if IsLate(s, m) then 1 else 0
    ensures Next(s, m).value.free == s.free + if IsFree(s, m) then 1 else 0
  {
  }

  lemma {:induction false} StepsAreCounted(c: Config, sched: seq<Move>)
    ensures var r := Exec(Init(c), Step(), sched);
      r.Some? ==> r.value.late == LateSteps(c, sched) && r.value.free == FreeSteps(c, sched)
  {
    if sched != [] {
      StepsAreCounted(c, sched[..|sched|-1]);
      var before := Exec(Init(c), Step(), sched[..|sched|-1]);
      if before.Some? && Next(before.value, sched[|sched|-1]).Some? {
        StepCounts(before.value, sched[|sched|-1]);
      }
    }
  }

  /** No run has more late steps than smokers: each wastes one of the tokens posted to end them. */
  lemma LateIsBounded(c: Config, sched: seq<Move>)
    ensures Exec(Init(c), Step(), sched).Some? ==> LateSteps(c, sched) <= c.count
  {
    var r := Exec(Init(c), Step(), sched);
    if r.Some? {
      assert Reachable(Init(c), Step(), r.value);
      ReachableInv(c, r.value);
      StepsAreCounted(c, sched);
    }
  }

  lemma CountedRun(c: Config, sched: seq<Move>)
    ensures var r := Exec(Init(c), Step(), sched);
      r.Some? ==>
        && Inv(c, r.value) && r.value.late == LateSteps(c, sched) && r.value.free == FreeSteps(c, sched)
  {
    var r := Exec(Init(c), Step(), sched);
    if r.Some? {
      assert Reachable(Init(c), Step(), r.value);
      ReachableInv(c, r.value);
      StepsAreCounted(c, sched);
    }
  }

  /** The output of a run is exact if and only if no smoker passes its test with a signal pending. */
  lemma ExactOutput(c: Config, sched: seq<Move>)
    requires c.count > 0
    ensures var r := Exec(Init(c), Step(), sched);
      r.Some? && Stuck(Step(), r.value) ==>
        && r.value.printed == Wanted(c.input) + Copies(r.value.item, LateSteps(c, sched))
        && (r.value.printed == Wanted(c.input) <==> LateSteps(c, sched) == 0)
  {
    var r := Exec(Init(c), Step(), sched);
    if r.Some? && Stuck(Step(), r.value) {
      CountedRun(c, sched);
      RunEnds(c, r.value);
    }
  }

  /**
   All smokers exit if and only if the late steps do not outnumber the smokers that end
   without a token; in particular they do when no step is late.
   */
  lemma AllExit(c: Config, sched: seq<Move>)
    requires c.count > 0
    ensures var r := Exec(Init(c), Step(), sched);
      r.Some? && Stuck(Step(), r.value) ==>
        && (AllExited(r.value) <==> LateSteps(c, sched) <= FreeSteps(c, sched))
        && (AllExited(r.value) <==> Done(r.value))
        && Number(r.value, {Waiting}) == AtLeastZero(LateSteps(c, sched) - FreeSteps(c, sched))
  {
    var r := Exec(Init(c), Step(), sched);
    if r.Some? && Stuck(Step(), r.value) {
      CountedRun(c, sched);
      RunEnds(c, r.value);
    }
  }

  // ----- when signals are prompt -----

  /** The runs in which a smoker handles a signal it has been sent before it takes the next token. */
  function PromptStep(): (State, Move) -> Option<State> {
    (s: State, m: Move) =>
      if m.Smoke? && m.i < |s.smokers| && s.smokers[m.i].stage.Waiting? && s.smokers[m.i].pending then None
      else Next(s, m)
  }

  /** The barman posts its first ending token after all signals, so whoever takes one has handled its own. */
  ghost predicate PromptInv(c: Config, s: State) {
    && Inv(c, s) && s.late == 0
    && (!Serving(s) ==> forall i | 0 <= i < |s.smokers| && s.smokers[i].stage.Taken? :: !s.smokers[i].checker)
  }

  lemma PromptStepKeepsInv(c: Config, s: State, m: Move)
    requires PromptInv(c, s) && PromptStep()(s, m).Some?
    ensures PromptInv(c, PromptStep()(s, m).value)
  {
    StepKeepsInv(c, s, m);
    StepCounts(s, m);
    if m.Smoke? && Serving(s) {
      assert !s.smokers[m.i].pending;
    }
  }

  /** With prompt signals no step is ever late. */
  lemma PromptIsNeverLate(c: Config, sched: seq<Move>)
    ensures Exec(Init(c), PromptStep(), sched).Some? ==> LateSteps(c, sched) == 0
  {
    InitInv(c);
    forall x, m | PromptInv(c, x) && PromptStep()(x, m).Some? ensures PromptInv(c, PromptStep()(x, m).value) {
      PromptStepKeepsInv(c, x, m);
    }
    AlwaysAfter(Init(c), PromptStep(), x => PromptInv(c, x), sched);
    if Exec(Init(c), PromptStep(), sched).Some? {
      Simulated(Init(c), PromptStep(), Step(), sched);
      StepsAreCounted(c, sched);
    }
  }

  lemma PromptStuckIsStuck(s: State)
    requires Stuck(PromptStep(), s)
    ensures Stuck(Step(), s)
  {
    forall m ensures Step()(s, m).None? {
      assert PromptStep()(s, m).None?;
      if m.Smoke? {
        assert PromptStep()(s, Handle(m.i)).None?;
      }
    }
  }

  /**
   When every signal is handled before its smoker takes the next token, a run that cannot
   be continued has printed exactly the letters and ended every smoker.
   */
  lemma PromptRunsAreExact(c: Config, sched: seq<Move>)
    requires c.count > 0
    ensures var r := Exec(Init(c), PromptStep(), sched);
      r.Some? ==>
        && (Serving(r.value) ==> r.value.printed <= Wanted(c.input))
        && (!Serving(r.value) ==> r.value.printed == Wanted(c.input))
        && (Stuck(PromptStep(), r.value) ==> r.value.printed == Wanted(c.input) && AllExited(r.value) && Done(r.value))
  {
    var r := Exec(Init(c), PromptStep(), sched);
    if r.Some? {
      PromptIsNeverLate(c, sched);
      Simulated(Init(c), PromptStep(), Step(), sched);
      StepsAreCounted(c, sched);
      OutputIsLetters(c, r.value);
      if Stuck(PromptStep(), r.value) {
        PromptStuckIsStuck(r.value);
        ReachableInv(c, r.value);
        RunEnds(c, r.value);
      }
    }
  }

  // ----- every run ends -----

  function StageLeft(x: Smoker): nat {
    (if x.pending then 1 else 0) +
    match x.stage
    case Taken => 6
    case Printing => 5
    case Returning => 4
    case Starting => 3
    case Checking => 2
    case Waiting => 1
    case Exited => 0
  }

  function SmokersLeft(ss: seq<Smoker>, n: nat): nat
    requires n <= |ss|
  {
    if n == 0 then 0 else SmokersLeft(ss, n-1) + StageLeft(ss[n-1])
  }

  lemma {:induction false} SmokersLeftAfter(ss: seq<Smoker>, n: nat, i: nat, x: Smoker)
    requires n <= |ss| && i < |ss|
    ensures SmokersLeft(ss[i := x], n)
         == SmokersLeft(ss, n) + if i < n then StageLeft(x) - StageLeft(ss[i]) else 0
  {
    if n > 0 {
      SmokersLeftAfter(ss, n-1, i, x);
    }
  }

  function BarmanLeft(barman: Barman, bytes: nat, n: nat): nat {
    var closing := 12 * bytes + 13 * n + 3;
    match barman
    case Reading => closing
    case Writing(_) => closing + 11
    case Offering => closing + 10
    case Giving => closing + 3
    case Killing(i) => 2 * AtLeastZero(n - i) + 11 * n + 2
    case Posting(i) => 10 * AtLeastZero(n - i) + n + 1
    case KillingAgain(i) => 10 * AtLeastZero(n - i - 1) + 3 + n + 1
    case Joining(i) => AtLeastZero(n - i)
  }

  function Measure(): State -> nat {
    (s: State) => BarmanLeft(s.barman, |s.rest|, |s.smokers|) + 6 * s.take + s.give + SmokersLeft(s.smokers, |s.smokers|)
  }

  lemma SignalCosts(ss: seq<Smoker>, i: nat)
    requires i < |ss|
    ensures |Signalled(ss, i)| == |ss| && SmokersLeft(Signalled(ss, i), |ss|) <= SmokersLeft(ss, |ss|) + 1
  {
    SmokersLeftAfter(ss, |ss|, i, ss[i].(pending := true));
  }

  lemma BarmanDescends(s: State)
    requires BarmanStep(s).Some?
    ensures Measure()(BarmanStep(s).value) < Measure()(s)
  {
    if s.barman.Killing? || s.barman.KillingAgain? {
      if s.barman.next < |s.smokers| {
        SignalCosts(s.smokers, s.barman.next);
      }
    }
  }

  lemma SmokerDescends(s: State, i: nat)
    requires i < |s.smokers| && SmokerStep(s, i).Some?
    ensures Measure()(SmokerStep(s, i).value) < Measure()(s)
  {
    assert SmokerStep(s, i).value.smokers == s.smokers[i := SmokerStep(s, i).value.smokers[i]];
    SmokersLeftAfter(s.smokers, |s.smokers|, i, SmokerStep(s, i).value.smokers[i]);
  }

  lemma HandlerDescends(s: State, i: nat)
    requires i < |s.smokers| && HandleStep(s, i).Some?
    ensures Measure()(HandleStep(s, i).value) < Measure()(s)
  {
    SmokersLeftAfter(s.smokers, |s.smokers|, i, HandleStep(s, i).value.smokers[i]);
  }

  lemma StepDescends(s: State, m: Move)
    requires Step()(s, m).Some?
    ensures Measure()(Step()(s, m).value) < Measure()(s)
  {
    match m
    case Serve => BarmanDescends(s);
    case Smoke(i) => SmokerDescends(s, i);
    case Handle(i) => HandlerDescends(s, i);
  }

  lemma InitMeasure(n: nat, ss: seq<Smoker>)
    requires n <= |ss| && forall i | 0 <= i < n :: ss[i] == Smoker(Starting, true, false)
    ensures SmokersLeft(ss, n) == 3 * n
  {
  }

  /** No run is longer than 12 steps for a byte of input and 16 for a smoker, plus 3. */
  lemma RunsAreFinite(c: Config, sched: seq<Move>)
    ensures Exec(Init(c), Step(), sched).Some? ==> |sched| <= 12 * |c.input| + 16 * c.count + 3
  {
    forall x, m | Step()(x, m).Some? ensures Measure()(Step()(x, m).value) < Measure()(x) {
      StepDescends(x, m);
    }
    RunsAreShort(Init(c), Step(), x => true, Measure(), sched);
    InitMeasure(c.count, Init(c).smokers);
  }

  // ----- late signals -----

  /** The system up to the first kill. */
  function EarlyStep(): (State, Move) -> Option<State> {
    (s: State, m: Move) => if Serving(s) || m != Serve then Next(s, m) else None
  }

  ghost predicate EarlyInv(c: Config, s: State) {
    && Inv(c, s) && (Serving(s) || s.barman == Killing(0)) && s.free == 0
    && forall i | 0 <= i < |s.smokers| :: s.smokers[i].checker && !s.smokers[i].pending && !s.smokers[i].stage.Exited?
  }

  lemma EarlyStepKeepsInv(c: Config, s: State, m: Move)
    requires EarlyInv(c, s) && EarlyStep()(s, m).Some?
    ensures EarlyInv(c, EarlyStep()(s, m).value)
  {
    StepKeepsInv(c, s, m);
  }

  lemma EarlyKeepsInv(c: Config)
    ensures Preserved(EarlyStep(), (x: State) => EarlyInv(c, x))
    ensures Descends(EarlyStep(), (x: State) => EarlyInv(c, x), Measure())
  {
    forall x, m | EarlyInv(c, x) && EarlyStep()(x, m).Some?
      ensures EarlyInv(c, EarlyStep()(x, m).value)
      ensures Measure()(EarlyStep()(x, m).value) < Measure()(x)
    {
      EarlyStepKeepsInv(c, x, m);
      StepDescends(x, m);
    }
  }

  /** Until then somebody can move, as long as a smoker is not waiting. */
  lemma EarlyProgress(c: Config, s: State, i: nat) returns (m: Move)
    requires c.count > 0 && EarlyInv(c, s) && i < c.count
    requires Serving(s) || s.smokers[i].stage != Waiting
    ensures EarlyStep()(s, m).Some?
  {
    if Serving(s) {
      m := ServingMoves(c, s);
    } else {
      m := Smoke(i);
    }
  }

  /** A smoker that waits and has no signal or all of them ahead of it. */
  ghost predicate AllWaiting(s: State) {
    forall i | 0 <= i < |s.smokers| :: s.smokers[i].stage.Waiting? && s.smokers[i].checker
  }

  /** All letters printed and every smoker waiting, just before the first kill. */
  lemma BeforeKill(c: Config) returns (s: State)
    requires c.count > 0
    ensures Reachable(Init(c), Step(), s)
    ensures |s.smokers| == c.count && s.barman == Killing(0) && s.free == 0 && AllWaiting(s)
  {
    InitInv(c);
    Initially(Init(c), EarlyStep());
    EarlyKeepsInv(c);
    var sched;
    s, sched := RunsOut(Init(c), EarlyStep(), x => EarlyInv(c, x), Measure(), Init(c));
    AlwaysAfter(Init(c), EarlyStep(), x => EarlyInv(c, x), sched);
    Simulated(Init(c), EarlyStep(), Step(), sched);
    forall i: nat | i < c.count ensures !Serving(s) && s.smokers[i].stage.Waiting? {
      if Serving(s) || s.smokers[i].stage != Waiting {
        var m := EarlyProgress(c, s, i);
      }
    }
    assert !Serving(s) && s.smokers[0].stage.Waiting?;
  }

  /** The barman sends the first round of signals and comes to its first post. */
  lemma {:induction false} KillsAll(c: Config, s: State, k: nat) returns (s': State)
    requires Reachable(Init(c), Step(), s)
    requires k <= |s.smokers| && s.barman == Killing(k) && s.free == 0 && AllWaiting(s)
    ensures Reachable(Init(c), Step(), s') && |s'.smokers| == |s.smokers|
    ensures s'.barman == Posting(0) && s'.free == 0 && AllWaiting(s')
    decreases |s.smokers| - k
  {
    OneMore(Init(c), Step(), s, Serve);
    s' := BarmanStep(s).value;
    if k < |s.smokers| {
      s' := KillsAll(c, s', k + 1);
    }
  }

  /** Whatever the input, the first token can be wasted by a late smoker, which then waits again. */
  lemma WastesToken(c: Config) returns (s: State)
    requires c.count > 0
    ensures Reachable(Init(c), Step(), s) && |s.smokers| == c.count
    ensures !Serving(s) && s.late >= 1 && s.free == 0 && AllWaiting(s)
  {
    var early := BeforeKill(c);
    s := KillsAll(c, early, 0);
    ReachableInv(c, s);
    var moves := [Serve, Smoke(0), Smoke(0), Smoke(0), Smoke(0), Smoke(0)];
    var stages := [Waiting, Waiting, Taken, Printing, Returning, Checking, Waiting];
    for n := 0 to 6
      invariant Reachable(Init(c), Step(), s) && |s.smokers| == c.count && !Serving(s)
      invariant if n == 0 then s.barman == Posting(0) else s.barman == KillingAgain(0)
      invariant n == 1 ==> s.take > 0
      invariant s.smokers[0].stage == stages[n] && s.smokers[0].checker && s.smokers[0].pending
      invariant s.free == 0 && (n >= 3 ==> s.late >= 1)
      invariant forall i | 0 < i < |s.smokers| :: s.smokers[i].stage.Waiting? && s.smokers[i].checker
    {
      OneMore(Init(c), Step(), s, moves[n]);
      s := Step()(s, moves[n]).value;
    }
  }

  /** A token has been wasted, and every smoker waits, ends with the next token, or has ended so. */
  ghost predicate Wasted(c: Config, s: State) {
    && Inv(c, s) && !Serving(s) && s.late >= 1 && s.free == 0
    && forall i | 0 <= i < |s.smokers| ::
      var x := s.smokers[i];
      x.stage.Waiting? || x.stage.Exited? || (x.stage.Taken? && !x.checker)
  }

  lemma WastedKept(c: Config, s: State, m: Move)
    requires Wasted(c, s) && PromptStep()(s, m).Some?
    ensures Wasted(c, PromptStep()(s, m).value)
  {
    StepKeepsInv(c, s, m);
  }

  lemma WastedStays(c: Config)
    ensures Preserved(PromptStep(), (x: State) => Wasted(c, x))
    ensures Descends(PromptStep(), (x: State) => Wasted(c, x), Measure())
  {
    forall x, m | Wasted(c, x) && PromptStep()(x, m).Some?
      ensures Wasted(c, PromptStep()(x, m).value)
      ensures Measure()(PromptStep()(x, m).value) < Measure()(x)
    {
      WastedKept(c, x, m);
      StepDescends(x, m);
    }
  }

  /**
   For every input and any number of smokers some run prints the last item again and then
   hangs: a smoker waits in vain and the barman waits for it.
   */
  lemma CanHang(c: Config) returns (s: State)
    requires c.count > 0
    ensures Reachable(Init(c), Step(), s) && Stuck(Step(), s)
    ensures s.printed != Wanted(c.input) && !AllExited(s) && !Done(s)
  {
    var wasted := WastesToken(c);
    ReachableInv(c, wasted);
    WastedStays(c);
    Initially(wasted, PromptStep());
    var sched;
    s, sched := RunsOut(wasted, PromptStep(), x => Wasted(c, x), Measure(), wasted);
    AlwaysAfter(wasted, PromptStep(), x => Wasted(c, x), sched);
    Simulated(wasted, PromptStep(), Step(), sched);
    Chained(Init(c), Step(), wasted, sched);
    PromptStuckIsStuck(s);
    RunEnds(c, s);
  }

  // ----- the program itself, updated in place -----

  class Bar {
    const c: Config
    var rest: seq<Byte>
    var item: Byte
    var take: nat
    var give: nat
    var barman: Barman
    var smokers: seq<Smoker>
    var printed: seq<Byte>
    ghost var late: nat
    ghost var free: nat

    ghost function Snapshot(): State
      reads this
    {
      State(rest, item, take, give, barman, smokers, printed, late, free)
    }

    constructor (c: Config)
      ensures this.c == c && Snapshot() == Init(c)
    {
      this.c := c;
      rest, item, take, give := c.input, 0, 0, 0;
      barman, smokers, printed := Reading, seq(c.count, _ => Smoker(Starting, true, false)), [];
      late, free := 0, 0;
    }

    /** kill (pids[i], SIGTERM) */
    method Kill(i: nat)
      requires i < |smokers|
      modifies this`smokers
      ensures smokers == Signalled(old(smokers), i)
    {
      if !smokers[i].stage.Exited? {
        smokers := smokers[i := smokers[i].(pending := true)];
      }
    }

    /** One step of barman_work. */
    method Work()
      requires BarmanStep(Snapshot()).Some?
      modifies this
      ensures Some(Snapshot()) == BarmanStep(old(Snapshot()))
    {
      match barman {
        case Reading =>
          if rest == [] || rest[0] >= 128 {
            barman := Killing(0);
          } else {
            barman := if IsLetter(rest[0]) then Writing(rest[0]) else Reading;
            rest := rest[1..];
          }
        case Writing(letter) => item, barman := Upper(letter), Offering;
        case Offering => take, barman := take + 1, Giving;
        case Giving => give, barman := give - 1, Reading;
        case Killing(i) =>
          if i < |smokers| {
            Kill(i);
            barman := Killing(i + 1);
          } else {
            barman := Posting(0);
          }
        case Posting(i) =>
          if i < |smokers| {
            take, barman := take + 1, KillingAgain(i);
          } else {
            barman := Joining(0);
          }
        case KillingAgain(i) =>
          Kill(i);
          barman := Posting(i + 1);
        case Joining(i) => barman := Joining(i + 1);
      }
    }

    /** One step of smoker_work in process i. */
    method Smoke(i: nat)
      requires i < |smokers| && SmokerStep(Snapshot(), i).Some?
      modifies this
      ensures Some(Snapshot()) == SmokerStep(old(Snapshot()), i)
    {
      var x := smokers[i];
      var next: Stage;
      match x.stage {
        case Starting => next := Checking;
        case Checking =>
          next := if x.checker then Waiting else Exited;
          free := free + if x.checker then 0 else 1;
        case Waiting => take, next := take - 1, Taken;
        case Taken =>
          next := if x.checker then Printing else Exited;
          late := late + if Late(x) then 1 else 0;
        case Printing => printed, next := printed + Shown(item), Returning;
        case Returning => give, next := give + 1, Checking;
      }
      smokers := smokers[i := x.(stage := next)];
    }

    /** The delivery of a signal to process i. */
    method Deliver(i: nat)
      requires i < |smokers| && HandleStep(Snapshot(), i).Some?
      modifies this
      ensures Some(Snapshot()) == HandleStep(old(Snapshot()), i)
    {
      var x := smokers[i];
      if x.stage.Starting? {
        smokers := smokers[i := x.(stage := Exited, pending := false)];
        free := free + 1;
      } else {
        smokers := smokers[i := x.(checker := false, pending := false)];
      }
    }

    predicate CanWork()
      reads this
    {
      match barman
      case Giving => give > 0
      case KillingAgain(i) => i < |smokers|
      case Joining(i) => i < |smokers| && smokers[i].stage.Exited?
      case _ => true
    }

    predicate CanSmoke(i: nat)
      requires i < |smokers|
      reads this
    {
      match smokers[i].stage
      case Waiting => take > 0
      case Exited => false
      case _ => true
    }

    predicate CanDeliver(i: nat)
      requires i < |smokers|
      reads this
    {
      smokers[i].pending && !smokers[i].stage.Exited?
    }

    /**
     All processes in any order for as long as one of them can move.  The result tells
     whether every smoker has been waited for.
     */
    method RunAll() returns (joined: bool)
      requires c.count > 0 && Snapshot() == Init(c)
      modifies this
      ensures printed == Wanted(c.input) + Copies(item, late)
      ensures joined <==> late <= free
      ensures joined <==> forall i | 0 <= i < |smokers| :: smokers[i].stage.Exited?
    {
      InitInv(c);
      var more := true;
      while more
        invariant Inv(c, Snapshot())
        invariant !more ==> Stuck(Step(), Snapshot())
        decreases Measure()(Snapshot()), more
      {
        ghost var before := Snapshot();
        var m := Chosen();
        if m.Some? {
          StepKeepsInv(c, before, m.value);
          StepDescends(before, m.value);
          match m.value {
            case Serve => Work();
            case Smoke(i) => Smoke(i);
            case Handle(i) => Deliver(i);
          }
        }
        more := m.Some?;
      }
      RunEnds(c, Snapshot());
      joined := barman.Joining? && barman.next == |smokers|;
    }

    /** Any possible move, or none when there is none. */
    method Chosen() returns (m: Option<Move>)
      ensures m.Some? ==> Next(Snapshot(), m.value).Some?
      ensures m.None? ==> Stuck(Step(), Snapshot())
    {
      var wish: Move := *;
      var granted :=
        match wish
        case Serve => CanWork()
        case Smoke(i) => i < |smokers| && CanSmoke(i)
        case Handle(i) => i < |smokers| && CanDeliver(i);
      if granted {
        return Some(wish);
      }
      if CanWork() {
        return Some(Serve);
      }
      for i := 0 to |smokers|
        invariant forall j | 0 <= j < i :: !CanSmoke(j) && !CanDeliver(j)
      {
        if CanSmoke(i) {
          return Some(Move.Smoke(i));
        }
        if CanDeliver(i) {
          return Some(Move.Handle(i));
        }
      }
      m := None;
      forall x ensures Step()(Snapshot(), x).None? {
        assert x.Smoke? && x.i < |smokers| ==> !CanSmoke(x.i);
        assert x.Handle? && x.i < |smokers| ==> !CanDeliver(x.i);
      }
    }
  }
}
