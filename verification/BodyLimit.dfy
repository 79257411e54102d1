/**
 The budget of a request body, enforced while it arrives (api/body_limit.py:98-152).

 The application may have several receives and sends under way; a receive is two steps, before
 and after it waits for a message.  `State` is what the closures share, with what the client
 and the application have been given so far.
 */
module BodyLimit {
  import opened Common

  datatype Message = Body(bytes: nat) | Disconnect

  datatype State = State(
    received: nat, cut: bool, answered: bool, started: bool,
    waiting: nat, given: nat, starts: nat)

  datatype Event =
    | Receive
    | Arrive(message: Message)
    | SendStart
    | SendBody

  predicate Enabled(s: State, e: Event) {
    e.Arrive? ==> s.waiting > 0
  }

  /** What the application's receive returns; nothing while it waits, or for a send. */
  function Handed(s: State, budget: nat, e: Event): Option<Message> {
    match e
    case Receive => if s.cut then Some(Disconnect) else None
    case Arrive(m) => if m.Body? && s.received + m.bytes > budget then Some(Disconnect) else Some(m)
    case _ => None
  }

  function Step(s: State, budget: nat, e: Event): State
    requires Enabled(s, e)
  {
    match e
    case Receive => if s.cut then s else s.(waiting := s.waiting + 1)
    case Arrive(m) =>
      var t := s.(waiting := s.waiting - 1);
      if m.Disconnect? then t
      else if s.received + m.bytes <= budget then t.(received := s.received + m.bytes, given := s.given + m.bytes)
      else
        t.(received := s.received + m.bytes, cut := true, answered := s.answered || !s.started,
           starts := if s.started then s.starts else s.starts + 1)
    case SendStart => if s.answered then s else s.(started := true, starts := s.starts + 1)
    case SendBody => s
  }

  function Empty(): State {
    State(0, false, false, false, 0, 0, 0)
  }

  function After(budget: nat, es: seq<Event>): State {
    if es == [] then Empty()
    else
      var before := After(budget, es[..|es| - 1]);
      if Enabled(before, Last(es)) then Step(before, budget, Last(es)) else before
  }

  predicate Runs(budget: nat, es: seq<Event>) {
    es == [] || (Runs(budget, es[..|es| - 1]) && Enabled(After(budget, es[..|es| - 1]), Last(es)))
  }

  /** How many times the application begins a response. */
  function Begun(es: seq<Event>): nat {
    if es == [] then 0 else Begun(es[..|es| - 1]) + if Last(es).SendStart? then 1 else 0
  }

  ghost predicate Inv(s: State, budget: nat) {
    && s.given <= s.received && s.given <= budget && (s.cut <==> s.received > budget)
    && !(s.answered && s.started) && (s.answered ==> s.cut) && (s.cut ==> s.answered || s.started)
  }

  lemma {:induction false} InvAlways(budget: nat, es: seq<Event>)
    requires Runs(budget, es)
    ensures Inv(After(budget, es), budget)
  {
    if es != [] {
      InvAlways(budget, es[..|es| - 1]);
    }
  }

  /** However receives and sends interleave, the application is handed at most the budget, and
      nothing but disconnects once the body has passed it. */
  lemma WithinBudget(budget: nat, es: seq<Event>, e: Event)
    requires Runs(budget, es) && Enabled(After(budget, es), e)
    ensures After(budget, es).given <= budget
    ensures After(budget, es).cut && Handed(After(budget, es), budget, e).Some? ==>
              Handed(After(budget, es), budget, e).value.Disconnect?
    ensures Step(After(budget, es), budget, e).given
            == After(budget, es).given
               + (if Handed(After(budget, es), budget, e).Some? && Handed(After(budget, es), budget, e).value.Body?
                  then Handed(After(budget, es), budget, e).value.bytes else 0)
  {
    InvAlways(budget, es);
  }

  /** An application that begins one response at most: until the client is answered from here
      it gets what the application begins. */
  lemma {:induction false} StartsCounted(budget: nat, es: seq<Event>)
    requires Runs(budget, es) && Begun(es) <= 1
    ensures var s := After(budget, es);
            && Inv(s, budget)
            && (s.answered ==> s.starts >= 1)
            && (!s.answered ==> s.starts == Begun(es) && (s.started <==> Begun(es) == 1))
  {
    if es != [] {
      StartsCounted(budget, es[..|es| - 1]);
    }
  }

  lemma Extend(budget: nat, es: seq<Event>, e: Event)
    requires Runs(budget, es) && Enabled(After(budget, es), e)
    ensures Runs(budget, es + [e]) && After(budget, es + [e]) == Step(After(budget, es), budget, e)
    ensures Begun(es + [e]) == Begun(es) + if e.SendStart? then 1 else 0
  {
    assert (es + [e])[..|es|] == es;
  }

  function Arrivals(ms: seq<Message>): (es: seq<Event>)
    ensures |es| == |ms| && forall i | 0 <= i < |ms| :: es[i] == Arrive(ms[i])
  {
    seq(|ms|, i requires 0 <= i < |ms| => Arrive(ms[i]))
  }

  lemma ArrivalsExtend(ms: seq<Message>, m: Message, es: seq<Event>)
    ensures es + Arrivals(ms + [m]) == es + Arrivals(ms) + [Arrive(m)]
  {
  }

  /** More receives wait than the client has answers to come. */
  predicate AnswersTwice(s: State) {
    s.starts >= 2 || (!s.started && s.waiting >= if s.answered then 1 else 2)
  }

  lemma {:induction false} ArrivalsKeepOne(budget: nat, es: seq<Event>, ms: seq<Message>)
    requires Runs(budget, es + Arrivals(ms)) && Begun(es) <= 1 && Runs(budget, es)
    requires !AnswersTwice(After(budget, es))
    ensures Begun(es + Arrivals(ms)) == Begun(es) && !AnswersTwice(After(budget, es + Arrivals(ms)))
    decreases |ms|
  {
    if ms == [] {
      assert es + Arrivals(ms) == es;
    } else {
      var before, m := ms[..|ms| - 1], Last(ms);
      assert before + [m] == ms;
      ArrivalsExtend(before, m, es);
      assert (es + Arrivals(ms))[..|es + Arrivals(ms)| - 1] == es + Arrivals(before);
      ArrivalsKeepOne(budget, es, before);
      StartsCounted(budget, es + Arrivals(before));
    }
  }

  /** A body that is over the budget by itself comes for a receive that waits, the client not
      having seen the application begin. */
  lemma OverBudget(budget: nat, es: seq<Event>)
    requires Runs(budget, es) && After(budget, es).waiting >= 1 && !After(budget, es).started
    ensures var s, next := After(budget, es), es + [Arrive(Body(budget + 1))];
            && Runs(budget, next)
            && After(budget, next).waiting == s.waiting - 1 && !After(budget, next).started
            && After(budget, next).answered && After(budget, next).starts == s.starts + 1
  {
    Extend(budget, es, Arrive(Body(budget + 1)));
  }

  /** Whatever has happened, the messages still to come can bring the client a second response
      start exactly when it has one already, or, the application not having begun, one receive
      waits after the answer or two before it. */
  lemma TwoStartsIff(budget: nat, es: seq<Event>)
    requires Runs(budget, es) && Begun(es) <= 1
    ensures AnswersTwice(After(budget, es)) <==>
              exists ms :: Runs(budget, es + Arrivals(ms)) && After(budget, es + Arrivals(ms)).starts >= 2
  {
    var s, m := After(budget, es), Body(budget + 1);
    StartsCounted(budget, es);
    assert es + Arrivals([]) == es;
    if AnswersTwice(s) && s.starts < 2 {
      OverBudget(budget, es);
      assert es + Arrivals([m]) == es + [Arrive(m)];
      if !s.answered {
        OverBudget(budget, es + [Arrive(m)]);
        assert es + Arrivals([m, m]) == es + [Arrive(m)] + [Arrive(m)];
      }
    }
    if !AnswersTwice(s) {
      forall ms | Runs(budget, es + Arrivals(ms))
        ensures After(budget, es + Arrivals(ms)).starts < 2
      {
        ArrivalsKeepOne(budget, es, ms);
      }
    }
  }

  /** At most one receive is under way at any time. */
  predicate OneReceive(budget: nat, es: seq<Event>) {
    es == [] || (OneReceive(budget, es[..|es| - 1]) && After(budget, es).waiting <= 1)
  }

  /** Then the answer from here is the only start the client gets, however often the
      application begins. */
  lemma {:induction false} AnsweredOnce(budget: nat, es: seq<Event>)
    requires Runs(budget, es) && OneReceive(budget, es)
    ensures After(budget, es).starts == if After(budget, es).answered then 1 else Begun(es)
    ensures After(budget, es).started <==> !After(budget, es).answered && Begun(es) > 0
    ensures After(budget, es).cut ==> After(budget, es).waiting == 0
  {
    if es != [] {
      AnsweredOnce(budget, es[..|es| - 1]);
      InvAlways(budget, es[..|es| - 1]);
    }
  }

  /** An application that never has two receives under way, and begins one response at most, is
      never two arrivals from a second start: the client gets one at most. */
  lemma {:induction false} OneStartInTurn(budget: nat, es: seq<Event>)
    requires Runs(budget, es) && OneReceive(budget, es) && Begun(es) <= 1
    ensures After(budget, es).starts <= 1 && !AnswersTwice(After(budget, es))
  {
    if es != [] {
      var before, e := es[..|es| - 1], Last(es);
      OneStartInTurn(budget, before);
      StartsCounted(budget, es);
      AnsweredOnce(budget, es);
      if e.Arrive? {
        TwoStartsIff(budget, before);
        assert before + Arrivals([e.message]) == es;
      }
    }
  }

  /** With two receives under way the client is answered twice: each sees the body over the
      budget, and neither asks whether it has been answered. */
  lemma TwoReceivesAnswerTwice(budget: nat)
    ensures exists es :: Runs(budget, es) && Begun(es) == 0 && After(budget, es).starts == 2
  {
    var es := [];
    Extend(budget, es, Receive);
    es := es + [Receive];
    Extend(budget, es, Receive);
    es := es + [Receive];
    Extend(budget, es, Arrive(Body(budget + 1)));
    es := es + [Arrive(Body(budget + 1))];
    Extend(budget, es, Arrive(Body(0)));
    es := es + [Arrive(Body(0))];
  }

  class Guard {
    const budget: nat
    var received: nat
    var cut: bool
    var answered: bool
    var started: bool
    ghost var waiting: nat
    ghost var given: nat
    ghost var starts: nat

    ghost function Now(): State
      reads this
    {
      State(received, cut, answered, started, waiting, given, starts)
    }

    constructor (budget: nat)
      ensures Now() == Empty() && this.budget == budget
    {
      this.budget := budget;
      received, cut, answered, started := 0, false, false, false;
      waiting, given, starts := 0, 0, 0;
    }

    /** `counted_receive` up to its wait: after the cut it does not wait. */
    method BeginReceive() returns (handed: Option<Message>)
      modifies this`waiting
      ensures Now() == Step(old(Now()), budget, Receive) && handed == Handed(old(Now()), budget, Receive)
    {
      if cut {
        return Some(Disconnect);
      }
      waiting := waiting + 1;
      return None;
    }

    /** The rest of it, once a message has come; `answer` is a 413 for the client. */
    method ResumeReceive(message: Message) returns (handed: Message, answer: bool)
      requires Enabled(Now(), Arrive(message))
      modifies this
      ensures Now() == Step(old(Now()), budget, Arrive(message))
      ensures Some(handed) == Handed(old(Now()), budget, Arrive(message))
      ensures answer <==> starts == old(starts) + 1
    {
      waiting, answer := waiting - 1, false;
      if message.Body? {
        received := received + message.bytes;
        if received > budget {
          cut := true;
          if !started {
            answered, answer, starts := true, true, starts + 1;
          }
          return Disconnect, answer;
        }
        given := given + message.bytes;
      }
      return message, answer;
    }

    /** `guarded_send`: nothing passes once the client has its answer. */
    method GuardedSend(isStart: bool) returns (sent: bool)
      modifies this`started, this`starts
      ensures Now() == Step(old(Now()), budget, if isStart then SendStart else SendBody)
      ensures sent == !answered
    {
      if answered {
        return false;
      }
      if isStart {
        started, starts := true, starts + 1;
      }
      return true;
    }
  }

  // ----- The declared length

  predicate IsDigit(c: char) {
    '0' <= c <= '9'
  }

  function DigitOf(c: char): nat
    requires IsDigit(c)
  {
    c as int - '0' as int
  }

  predicate AllDigits(s: string) {
    forall i | 0 <= i < |s| :: IsDigit(s[i])
  }

  /** The number a string of digits writes. */
  function Value(s: string): nat
    requires AllDigits(s)
  {
    if s == "" then 0 else 10 * Value(s[..|s| - 1]) + DigitOf(Last(s))
  }

  /** `str` of a number: without leading zeros. */
  function Decimal(n: nat): (s: string)
    ensures AllDigits(s) && s != ""
  {
    if n < 10 then [('0' as int + n) as char] else Decimal(n / 10) + [('0' as int + n % 10) as char]
  }

  function Power(n: nat): nat {
    if n == 0 then 1 else 10 * Power(n - 1)
  }

  lemma {:induction false} DecimalBounds(n: nat)
    ensures n < Power(|Decimal(n)|)
  {
    if n >= 10 {
      DecimalBounds(n / 10);
    } else {
      assert Power(1) == 10 * Power(0);
    }
  }

  /** Of the digits that do not start with 0, one more digit is at least a power of ten. */
  lemma {:induction false} ValueBound(s: string)
    requires AllDigits(s) && s != "" && s[0] != '0'
    ensures Power(|s| - 1) <= Value(s)
  {
    if |s| > 1 {
      ValueBound(s[..|s| - 1]);
    } else {
      assert s[..0] == "";
    }
  }

  lemma PowersGrow(a: nat, b: nat)
    requires a <= b
    ensures Power(a) <= Power(b)
  {
    if a < b {
      PowersGrow(a, b - 1);
    }
  }

  function WithoutZeros(s: string): string {
    if s != "" && s[0] == '0' then WithoutZeros(s[1..]) else s
  }

  lemma {:induction false} LeadingZero(s: string)
    requires AllDigits(s) && s != "" && s[0] == '0'
    ensures Value(s[1..]) == Value(s)
  {
    if |s| > 1 {
      assert s[..|s| - 1][1..] == s[1..][..|s| - 2];
      LeadingZero(s[..|s| - 1]);
    } else {
      assert s[..0] == "" && s[1..] == "";
    }
  }

  lemma {:induction false} ZerosDoNotCount(s: string)
    requires AllDigits(s)
    ensures AllDigits(WithoutZeros(s)) && Value(WithoutZeros(s)) == Value(s)
    ensures WithoutZeros(s) == "" || WithoutZeros(s)[0] != '0'
  {
    if s != "" && s[0] == '0' {
      LeadingZero(s);
      ZerosDoNotCount(s[1..]);
    }
  }

  datatype Verdict = Accepted | Malformed | TooLarge

  /** The test of a declared length, its surrounding whitespace taken off: digits are compared
      by their number first, so that no long string is ever read as a number.  It refuses just
      the lengths over the budget (section 8.6 of RFC 9110). */
  method CheckDeclared(declared: string, budget: nat) returns (v: Verdict)
    ensures v.Malformed? <==> declared == "" || !AllDigits(declared)
    ensures !v.Malformed? ==> (v.TooLarge? <==> Value(declared) > budget)
  {
    if declared == "" || !AllDigits(declared) {
      return Malformed;
    }
    ZerosDoNotCount(declared);
    var digits := WithoutZeros(declared);
    if digits == "" {
      digits := "0";
      assert digits[..0] == "" && Value(digits) == 0;
    }
    if |digits| > |Decimal(budget)| {
      DecimalBounds(budget);
      ValueBound(digits);
      PowersGrow(|Decimal(budget)|, |digits| - 1);
      return TooLarge;
    }
    return if Value(digits) > budget then TooLarge else Accepted;
  }
}
