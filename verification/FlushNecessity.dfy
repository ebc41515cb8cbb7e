/** The flush condition is exact: where a flush is skipped with something due, some movement of money on the
    very next day makes the recalculation depart from the schedule, and splitting fail. */
module FlushNecessity {
  import opened Money
  import opened InterestRules
  import opened InterestSchedule
  import opened BatchRecalculation
  import opened BatchCorrectness
  import opened Recalculation

  /** The base ledger with one more movement. */
  function WithFlow(book: Book, day: nat, delta: int): Book {
    book.(base := book.base + [Flow(day, delta)])
  }

  lemma FlowMoves(book: Book, day: nat, delta: int, d: nat)
    ensures BaseBalance(WithFlow(book, day, delta).base, d) ==
            BaseBalance(book.base, d) + if day <= d then delta else 0
  {
    var base := WithFlow(book, day, delta).base;
    assert base[..|base| - 1] == book.base;
  }

  // ---- What the past does not see

  /** Two books of one rule that agree before a day. */
  ghost predicate SameBefore(a: Book, b: Book, day: nat) {
    a.rule == b.rule && a.scale == b.scale && forall d: nat :: d < day ==>
      BaseBalance(a.base, d) == BaseBalance(b.base, d)
  }

  lemma FlowIsLater(book: Book, day: nat, delta: int)
    ensures SameBefore(book, WithFlow(book, day, delta), day)
  {
    hide BaseBalance;
    forall d: nat | d < day ensures BaseBalance(book.base, d) == BaseBalance(WithFlow(book, day, delta).base, d) {
      FlowMoves(book, day, delta, d);
    }
  }

  lemma {:induction false} SamePeriod(a: Book, b: Book, posts: seq<Posting>, from: nat, until: nat)
    requires a.scale <= 6 && SameBefore(a, b, until)
    ensures PeriodInterest(a, posts, from, until) == PeriodInterest(b, posts, from, until)
    decreases until
  {
    hide BaseBalance, Principal, DailyInterest;
    if from < until {
      SamePeriod(a, b, posts, from, until - 1);
    }
  }

  lemma {:induction false} SameSchedule(a: Book, b: Book, prior: seq<Posting>, from: nat, until: nat)
    requires a.scale <= 6 && SameBefore(a, b, until)
    ensures Schedule(a, prior, from, until) == Schedule(b, prior, from, until)
    decreases until
  {
    hide BaseBalance, PeriodInterest, ShouldPost;
    if from < until {
      SameSchedule(a, b, prior, from, until - 1);
      var posts := prior + Schedule(a, prior, from, until - 1);
      SamePeriod(a, b, posts, PeriodStart(a.rule, until - 1), until);
    }
  }

  lemma {:induction false} SameRun(a: Book, b: Book, st: Loop, from: nat, until: nat)
    requires a.scale <= 6 && SameBefore(a, b, until)
    ensures Run(a, st, from, until) == Run(b, st, from, until)
    decreases until
  {
    hide BaseBalance, DailyInterest, ShouldPost, ActiveOn, Capitalize;
    if from < until {
      SameRun(a, b, st, from, until - 1);
    }
  }

  lemma SameFlush(a: Book, b: Book, prior: seq<Posting>, start: nat, to: nat)
    requires a.scale <= 6 && SameBefore(a, b, to)
    ensures FlushesOnTime(a, prior, start, to) <==> FlushesOnTime(b, prior, start, to)
  {
    hide Schedule, HasDue, Principal, BaseBalance, DailyInterest, ActiveOn;
    forall day | start <= day < to
      ensures Schedule(a, prior, start, day) == Schedule(b, prior, start, day)
      ensures var posts := prior + Schedule(a, prior, start, day); Interest(a, posts, day) == Interest(b, posts, day)
    {
      SameSchedule(a, b, prior, start, day);
    }
  }

  // ---- The first day a flush is skipped

  ghost predicate Skips(book: Book, prior: seq<Posting>, start: nat, day: nat)
    requires book.scale <= 6
  {
    var posts := prior + Schedule(book, prior, start, day);
    && CanFallBehind(book.rule) && ActiveOn(book.rule, day + 1)
    && HasDue(book.rule, posts, day) && Interest(book, posts, day) == 0
  }

  lemma FirstSkip(book: Book, prior: seq<Posting>, start: nat, to: nat) returns (day: nat)
    requires book.scale <= 6 && !FlushesOnTime(book, prior, start, to)
    ensures start <= day < to && FlushesOnTime(book, prior, start, day) && Skips(book, prior, start, day)
  {
    hide Schedule, HasDue, Interest, ActiveOn;
    day := start;
    while !Skips(book, prior, start, day)
      invariant start <= day <= to && FlushesOnTime(book, prior, start, day)
      decreases 1 + to - day
    {
      day := day + 1;
    }
  }

  // ---- A balance at which the overdue amount counts

  lemma EnoughEarns(rule: Rule, scale: nat, balance: int, day: nat)
    requires ValidRule(rule) && scale <= 6 && ActiveOn(rule, day)
    requires balance >= 1_000_000 * DaysInYear(rule.dayCount, day) * Pow10(16 - scale)
    ensures DailyInterest(rule, scale, balance, day) > 0
  {
    hide Pow10, RoundHalfAway, DaysInYear, ActiveOn;
    var rate, basis, p := EffectiveRateBps(rule, day), DaysInYear(rule.dayCount, day), Pow10(16 - scale);
    var d := 1_000_000 * basis;
    ProductsPositive(d, p);
    assert rate >= 1;
    ProductsNonNegative(balance, rate - 1);
    assert balance * (rate - 1) == balance * rate - balance;
    var q := RoundHalfAway(balance * rate, d);
    AtLeast(balance * rate, d, p);
    AtLeast(q, p, 1);
    ProductsPositive(RoundHalfAway(q, p), Pow10(18 - scale));
  }

  lemma AtLeast(n: int, d: int, k: nat)
    requires d > 0 && n >= d * k
    ensures RoundHalfAway(n, d) >= k
  {
    hide RoundHalfAway;
    ProductsNonNegative(d, k);
    RoundingIsExact(d * k, d, k);
    assert d * k == k * d;
    RoundingMonotone(d * k, n, d);
  }

  /** Some multiple of any amount earns less than the next. */
  lemma FirstRise(rule: Rule, scale: nat, amount: nat, day: nat) returns (k: nat)
    requires ValidRule(rule) && scale <= 6 && ActiveOn(rule, day) && amount > 0
    ensures DailyInterest(rule, scale, k * amount, day) < DailyInterest(rule, scale, (k + 1) * amount, day)
  {
    hide DailyInterest, DaysInYear, ActiveOn, Pow10;
    var basis, p := DaysInYear(rule.dayCount, day), Pow10(16 - scale);
    var n := 1_000_000 * basis * p;
    ProductsPositive(1_000_000 * basis, p);
    ProductsNonNegative(n, amount - 1);
    assert n * amount == n * (amount - 1) + n;
    EnoughEarns(rule, scale, n * amount, day);
    NothingEarnsNothing(rule, scale, day);
    assert 0 * amount == 0;
    k := n - 1;
    while DailyInterest(rule, scale, k * amount, day) >= DailyInterest(rule, scale, (k + 1) * amount, day)
      invariant DailyInterest(rule, scale, (k + 1) * amount, day) > 0
      decreases k
    {
      k := k - 1;
    }
  }

  lemma NothingEarnsNothing(rule: Rule, scale: nat, day: nat)
    requires scale <= 6
    ensures DailyInterest(rule, scale, 0, day) == 0
  {
  }

  // ---- The day after a skipped flush

  /** What the loop still has waiting although it has capitalized. */
  ghost function Overdue(book: Book, st: Loop, day: nat): int {
    Principal(book.rule, st.waiting, day, day)
  }

  /** After a skipped flush something is overdue, nothing is pending, and the payouts so far are right. */
  lemma AfterSkip(book: Book, prior: seq<Posting>, start: nat, day: nat)
    requires book.scale <= 6 && OnSchedule(book.rule, prior) && Before(prior, start) && start <= day
    requires FlushesOnTime(book, prior, start, day) && Skips(book, prior, start, day)
    ensures var st, posts := LoopAt(book, prior, start, day + 1, day + 1),
            prior + Schedule(book, prior, start, day + 1);
            && st.out == Schedule(book, prior, start, day + 1) && st.pending == 0 && Overdue(book, st, day + 1) > 0
            && Principal(book.rule, posts, day + 1, day + 1) ==
              TotalUpTo(st.working, day + 1) + Overdue(book, st, day + 1)
  {
    hide OnTime, Interest, HasDue, ActiveOn, OnSchedule, Before, Schedule, Step, PendingIsPeriod, Accounted, Principal,
      FlushesOnTime;
    var next := day + 1;
    var before, st := LoopAt(book, prior, start, day, next), LoopAt(book, prior, start, next, next);
    FlushedIsOnTime(book, prior, start, day, next);
    RunIsAccounted(book, prior, start, day, next);
    RunIsAccounted(book, prior, start, next, next);
    OnTimeRunFollowsSchedule(book, prior, start, day, next);
    OnTimeRunFollowsSchedule(book, prior, start, next, next);
    OnTimeNextDay(book, prior, before, day, next);
    OnTimeIsNothingOverdue(book, prior, st, next, next);
    OverdueIsPositive(book, prior, st, next, next);
    NothingPending(book, prior, st, next);
  }

  lemma OverdueIsPositive(book: Book, prior: seq<Posting>, st: Loop, day: nat, to: nat)
    requires Accounted(book, prior, st, day, to) && day <= to && ActiveOn(book.rule, day)
    ensures Overdue(book, st, day) >= 0
    ensures Principal(book.rule, prior + st.out, day, day) == TotalUpTo(st.working, day) + Overdue(book, st, day)
  {
    hide Principal, HasDue, ActiveOn, OnSchedule;
    PrincipalGrows(book.rule, st.waiting, day);
    AllCounted(st.working, day);
  }

  lemma NothingPending(book: Book, prior: seq<Posting>, st: Loop, day: nat)
    requires book.scale <= 6 && CanFallBehind(book.rule) && ActiveOn(book.rule, day)
            && PendingIsPeriod(book, prior, st, day)
    ensures st.pending == 0
  {
    EmptyPeriod(book, prior + st.out, day);
  }

  /** One more day of a daily rule, in the loop and in the schedule. */
  lemma OneMoreDay(book: Book, prior: seq<Posting>, st: Loop, start: nat, day: nat)
    requires book.scale <= 6 && book.rule.accrual == AccrueDaily && ActiveOn(book.rule, day) && start <= day
    requires st.pending == 0 && st.out == Schedule(book, prior, start, day)
    ensures var earned, owed := DayInterest(book, st, day), Interest(book, prior + st.out, day);
            earned != owed ==> Step(book, st, day).out != Schedule(book, prior, start, day + 1)
  {
    hide DayInterest, Interest, ActiveOn, Capitalize;
    EmptyPeriod(book, prior + st.out, day);
    var earned, owed := DayInterest(book, st, day), Interest(book, prior + st.out, day);
    assert Step(book, st, day).out == if earned > 0 then st.out + [Posting(day, earned)] else st.out by {
      CapitalizeKeepsOut(book.rule, st.(out := st.out + [Posting(day, earned)]), Posting(day, earned), day);
    }
    var paid := if owed > 0 then st.out + [Posting(day, owed)] else st.out;
    assert Schedule(book, prior, start, day + 1) == paid;
    var made := Step(book, st, day).out;
    assert earned > 0 ==> made[|st.out|].amount == earned;
    assert owed > 0 ==> paid[|st.out|].amount == owed;
  }

  lemma CapitalizeKeepsOut(rule: Rule, st: Loop, p: Posting, day: nat)
    ensures Capitalize(rule, st, p, day).out == st.out
  {
  }

  /** The movement on the next day that lets the overdue amount tell. */
  lemma SkipTells(book: Book, prior: seq<Posting>, start: nat, day: nat) returns (delta: int)
    requires book.scale <= 6 && ValidRule(book.rule) && OnSchedule(book.rule, prior) && Before(prior, start)
            && start <= day
    requires FlushesOnTime(book, prior, start, day) && Skips(book, prior, start, day)
    ensures var moved := WithFlow(book, day + 1, delta);
            Recalculated(moved, prior, start, day + 1).out != Schedule(moved, prior, start, day + 2)
  {
    hide OnSchedule, Before, Schedule, HasDue, Interest, Principal, FlushesOnTime, DailyInterest, BaseBalance,
      TotalUpTo, Step, ActiveOn;
    var next := day + 1;
    AfterSkip(book, prior, start, day);
    var st, out := LoopAt(book, prior, start, next, next), Schedule(book, prior, start, next);
    var overdue, working := Overdue(book, st, next), TotalUpTo(st.working, next);
    var k := FirstRise(book.rule, book.scale, overdue, next);
    delta := k * overdue - working - BaseBalance(book.base, next);
    var moved := WithFlow(book, next, delta);
    FlowMoves(book, next, delta, next);
    FlowIsLater(book, next, delta);
    SameSchedule(book, moved, prior, start, next);
    SameRun(book, moved, Start(book.rule, prior, start, next), start, next);
    assert (k + 1) * overdue == k * overdue + overdue;
    assert DayInterest(moved, st, next) == DailyInterest(book.rule, book.scale, k * overdue, next);
    assert Interest(moved, prior + out, next) == DailyInterest(book.rule, book.scale, (k + 1) * overdue, next) by {
      InterestIs(moved, prior + out, next);
    }
    OneMoreDay(moved, prior, st, start, next);
    LastDayOfRun(moved, prior, start, next);
  }

  lemma InterestIs(book: Book, posts: seq<Posting>, day: nat)
    requires book.scale <= 6
    ensures Interest(book, posts, day) ==
            DailyInterest(book.rule, book.scale, BaseBalance(book.base, day) + Principal(book.rule, posts, day, day),
              day)
  {
  }

  lemma LastDayOfRun(book: Book, prior: seq<Posting>, start: nat, day: nat)
    requires book.scale <= 6 && book.rule.accrual == AccrueDaily && start <= day
    ensures Recalculated(book, prior, start, day) == Step(book, LoopAt(book, prior, start, day, day), day)
  {
    hide Step;
  }

  // ---- The exact condition

  /** With a movement the day after, the recalculation up to then makes the scheduled payouts. */
  ghost predicate Follows(book: Book, prior: seq<Posting>, from: nat, day: nat, delta: int)
    requires book.scale <= 6
  {
    var moved := WithFlow(book, day + 1, delta);
    Recalculated(moved, prior, from, day + 1).out == Schedule(moved, prior, from, day + 2)
  }

  ghost predicate FollowsWhateverMoves(book: Book, prior: seq<Posting>, from: nat, to: nat)
    requires book.scale <= 6
  {
    forall day: nat, delta: int :: from <= day < to ==> Follows(book, prior, from, day, delta)
  }

  lemma FlushMonotone(book: Book, prior: seq<Posting>, start: nat, sooner: nat, to: nat)
    requires book.scale <= 6 && FlushesOnTime(book, prior, start, to) && sooner <= to
    ensures FlushesOnTime(book, prior, start, sooner)
  {
    hide Schedule, HasDue, Interest, ActiveOn;
  }

  /** The flush condition holds if and only if recalculations follow the schedule whatever moves next. */
  lemma FlushExactly(book: Book, prior: seq<Posting>, from: nat, to: nat)
    requires book.scale <= 6 && ValidRule(book.rule) && OnSchedule(book.rule, prior) && Before(prior, from)
    ensures FollowsWhateverMoves(book, prior, from, to) <==> FlushesOnTime(book, prior, from, to)
  {
    hide OnSchedule, Before, Schedule, FlushesOnTime, Recalculated, WithFlow, Skips;
    if FlushesOnTime(book, prior, from, to) {
      forall day: nat, delta: int | from <= day < to ensures Follows(book, prior, from, day, delta) {
        FlushedFollows(book, prior, from, to, day, delta);
      }
    } else {
      var day := FirstSkip(book, prior, from, to);
      var delta := SkipTells(book, prior, from, day);
      assert !Follows(book, prior, from, day, delta);
    }
  }

  lemma FlushedFollows(book: Book, prior: seq<Posting>, from: nat, to: nat, day: nat, delta: int)
    requires book.scale <= 6 && OnSchedule(book.rule, prior) && Before(prior, from)
    requires FlushesOnTime(book, prior, from, to) && from <= day < to
    ensures Follows(book, prior, from, day, delta)
  {
    hide OnSchedule, Before, Schedule, FlushesOnTime, Recalculated, Earlier, BaseBalance;
    var moved := WithFlow(book, day + 1, delta);
    FlushMonotone(book, prior, from, day + 1, to);
    FlowIsLater(book, day + 1, delta);
    SameFlush(book, moved, prior, from, day + 1);
    EarlierFacts(prior, from);
    RecalculationFollowsSchedule(moved, prior, from, day + 1);
  }

  // ---- The same for splitting

  /** With a movement the day after m, recalculating up to m and then that day is recalculating in one go. */
  ghost predicate Splits(book: Book, posts: seq<Posting>, a: nat, m: nat, delta: int)
    requires book.scale <= 6
  {
    var moved := WithFlow(book, m + 1, delta);
    Replaced(moved, Replaced(moved, posts, a, m), m + 1, m + 1) == Replaced(moved, posts, a, m + 1)
  }

  ghost predicate SplitsWhateverMoves(book: Book, posts: seq<Posting>, a: nat, b: nat)
    requires book.scale <= 6
  {
    forall m: nat, delta: int :: a <= m < b ==> Splits(book, posts, a, m, delta)
  }

  lemma FlushedSplits(book: Book, posts: seq<Posting>, a: nat, b: nat, m: nat, delta: int)
    requires book.scale <= 6 && OnSchedule(book.rule, posts) && a <= m < b
    requires FlushesOnTime(book, Earlier(posts, a), a, b)
    ensures Splits(book, posts, a, m, delta)
  {
    hide OnSchedule, Schedule, FlushesOnTime, Replaced, Earlier, BaseBalance;
    var moved, prior := WithFlow(book, m + 1, delta), Earlier(posts, a);
    FlushMonotone(book, prior, a, m + 1, b);
    FlowIsLater(book, m + 1, delta);
    SameFlush(book, moved, prior, a, m + 1);
    RecalculationSplits(moved, posts, a, m, m + 1);
  }

  /** In one go the loop only sees what lies before the range, as a daily rule starts there. */
  lemma OneGo(book: Book, posts: seq<Posting>, a: nat, b: nat)
    requires book.scale <= 6 && book.rule.accrual == AccrueDaily
    ensures Replaced(book, posts, a, b) == Outside(posts, a, b) + Recalculated(book, Earlier(posts, a), a, b).out
  {
    hide Outside, Earlier, Run, Start;
    EarlierOutside(posts, a, b, a);
    EarlierFacts(posts, a);
    EarlierFacts(Earlier(posts, a), a);
    DependsOnEarlierOnly(book, Outside(posts, a, b), Earlier(posts, a), a, b);
  }

  lemma SkipBreaksSplit(book: Book, posts: seq<Posting>, a: nat, m: nat) returns (delta: int)
    requires book.scale <= 6 && ValidRule(book.rule) && OnSchedule(book.rule, posts) && a <= m
    requires FlushesOnTime(book, Earlier(posts, a), a, m) && Skips(book, Earlier(posts, a), a, m)
    ensures !Splits(book, posts, a, m, delta)
  {
    hide OnSchedule, Before, Schedule, FlushesOnTime, Replaced, Earlier, BaseBalance, Recalculated, Outside, HasDue,
      Interest, ActiveOn, SameBefore;
    var prior := Earlier(posts, a);
    EarlierOnSchedule(book.rule, posts, a);
    EarlierFacts(posts, a);
    delta := SkipTells(book, prior, a, m);
    var moved := WithFlow(book, m + 1, delta);
    FlowIsLater(book, m + 1, delta);
    AgreeSooner(book, moved, m, m + 1);
    SameFlush(book, moved, prior, a, m);
    NoLaterDay(moved, prior + Schedule(moved, prior, a, m + 1), m + 1);
    TwoReplacements(moved, posts, a, m, m + 1);
    OneGo(moved, posts, a, m + 1);
    SameTails(Outside(posts, a, m + 1), Schedule(moved, prior, a, m + 2), Recalculated(moved, prior, a, m + 1).out);
  }

  lemma AgreeSooner(a: Book, b: Book, sooner: nat, day: nat)
    requires SameBefore(a, b, day) && sooner <= day
    ensures SameBefore(a, b, sooner)
  {
    hide BaseBalance;
  }

  lemma NoLaterDay(book: Book, prior: seq<Posting>, day: nat)
    requires book.scale <= 6
    ensures FlushesOnTime(book, prior, day, day)
  {
  }

  lemma SameTails(head: seq<Posting>, xs: seq<Posting>, ys: seq<Posting>)
    ensures head + xs == head + ys ==> xs == ys
  {
    assert (head + xs)[|head|..] == xs && (head + ys)[|head|..] == ys;
  }

  /** The flush condition holds if and only if cutting a recalculation changes nothing whatever moves next. */
  lemma SplitExactly(book: Book, posts: seq<Posting>, a: nat, b: nat)
    requires book.scale <= 6 && ValidRule(book.rule) && OnSchedule(book.rule, posts)
    ensures SplitsWhateverMoves(book, posts, a, b) <==> FlushesOnTime(book, Earlier(posts, a), a, b)
  {
    hide OnSchedule, Schedule, FlushesOnTime, Splits, WithFlow, Skips, Earlier;
    if FlushesOnTime(book, Earlier(posts, a), a, b) {
      forall m: nat, delta: int | a <= m < b ensures Splits(book, posts, a, m, delta) {
        FlushedSplits(book, posts, a, b, m, delta);
      }
    } else {
      var m := FirstSkip(book, Earlier(posts, a), a, b);
      var delta := SkipBreaksSplit(book, posts, a, m);
      assert !Splits(book, posts, a, m, delta);
    }
  }
}
