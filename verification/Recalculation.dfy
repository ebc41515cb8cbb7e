/** Recalculating and replacing a range of a rule's payouts: where payouts fall, that repeating or
    splitting the operation changes nothing, and that it agrees with the day-by-day way. */
module Recalculation {
  import opened Money
  import opened InterestRules
  import opened InterestSchedule
  import opened IncrementalAccrual
  import opened BatchRecalculation
  import opened BatchCorrectness

  function Earlier(posts: seq<Posting>, day: nat): seq<Posting> {
    if posts == [] then []
    else
      var n := |posts| - 1;
      if posts[n].date < day then Earlier(posts[..n], day) + [posts[n]] else Earlier(posts[..n], day)
  }

  /** The payouts a recalculation of [from, to] leaves in place. */
  function Outside(posts: seq<Posting>, from: nat, to: nat): seq<Posting> {
    if posts == [] then []
    else
      var n := |posts| - 1;
      if from <= posts[n].date <= to then Outside(posts[..n], from, to) else Outside(posts[..n], from, to) + [posts[n]]
  }

  /** The rule's payouts after recalculating and replacing [from, to]. */
  function Replaced(book: Book, posts: seq<Posting>, from: nat, to: nat): seq<Posting>
    requires book.scale <= 6
  {
    var kept := Outside(posts, from, to);
    kept + Recalculated(book, kept, from, to).out
  }

  lemma {:induction false} OutsideConcat(xs: seq<Posting>, ys: seq<Posting>, from: nat, to: nat)
    ensures Outside(xs + ys, from, to) == Outside(xs, from, to) + Outside(ys, from, to)
  {
    if ys == [] {
      assert xs + ys == xs;
    } else {
      var n := |ys| - 1;
      OutsideConcat(xs, ys[..n], from, to);
      assert (xs + ys)[..|xs + ys| - 1] == xs + ys[..n];
    }
  }

  lemma {:induction false} EarlierConcat(xs: seq<Posting>, ys: seq<Posting>, day: nat)
    ensures Earlier(xs + ys, day) == Earlier(xs, day) + Earlier(ys, day)
  {
    if ys == [] {
      assert xs + ys == xs;
    } else {
      var n := |ys| - 1;
      EarlierConcat(xs, ys[..n], day);
      assert (xs + ys)[..|xs + ys| - 1] == xs + ys[..n];
    }
  }

  lemma OutsideFacts(posts: seq<Posting>, from: nat, to: nat)
    ensures (forall i :: 0 <= i < |posts| ==> from <= posts[i].date <= to) ==> Outside(posts, from, to) == []
    ensures (forall i :: 0 <= i < |posts| ==> !(from <= posts[i].date <= to)) ==> Outside(posts, from, to) == posts
    ensures forall i :: 0 <= i < |Outside(posts, from, to)| ==>
              var p := Outside(posts, from, to)[i]; p in posts && !(from <= p.date <= to)
  {
    hide Outside;
    if forall i :: 0 <= i < |posts| ==> from <= posts[i].date <= to {
      AllInside(posts, from, to);
    }
    if forall i :: 0 <= i < |posts| ==> !(from <= posts[i].date <= to) {
      AllOutside(posts, from, to);
    }
    OutsideMembers(posts, from, to);
  }

  lemma {:induction false} AllInside(posts: seq<Posting>, from: nat, to: nat)
    requires forall i :: 0 <= i < |posts| ==> from <= posts[i].date <= to
    ensures Outside(posts, from, to) == []
  {
    if posts != [] {
      AllInside(posts[..|posts| - 1], from, to);
    }
  }

  lemma {:induction false} AllOutside(posts: seq<Posting>, from: nat, to: nat)
    requires forall i :: 0 <= i < |posts| ==> !(from <= posts[i].date <= to)
    ensures Outside(posts, from, to) == posts
  {
    if posts != [] {
      AllOutside(posts[..|posts| - 1], from, to);
    }
  }

  lemma {:induction false} OutsideMembers(posts: seq<Posting>, from: nat, to: nat)
    ensures forall p :: p in Outside(posts, from, to) ==> p in posts && !(from <= p.date <= to)
  {
    if posts != [] {
      OutsideMembers(posts[..|posts| - 1], from, to);
    }
  }

  lemma {:induction false} EarlierFacts(posts: seq<Posting>, day: nat)
    ensures Before(posts, day) ==> Earlier(posts, day) == posts
    ensures (forall i :: 0 <= i < |posts| ==> day <= posts[i].date) ==> Earlier(posts, day) == []
    ensures Before(Earlier(posts, day), day)
    ensures forall p :: p in Earlier(posts, day) ==> p in posts
  {
    if posts != [] {
      EarlierFacts(posts[..|posts| - 1], day);
    }
  }

  lemma {:induction false} OutsideTwice(posts: seq<Posting>, a: nat, m: nat, b: nat)
    requires a <= m + 1 <= b + 1
    ensures Outside(Outside(posts, a, m), m + 1, b) == Outside(posts, a, b)
    ensures Outside(Outside(posts, a, b), a, b) == Outside(posts, a, b)
  {
    if posts != [] {
      var n := |posts| - 1;
      OutsideTwice(posts[..n], a, m, b);
      OutsideConcat(Outside(posts[..n], a, m), [posts[n]], m + 1, b);
      OutsideConcat(Outside(posts[..n], a, b), [posts[n]], a, b);
    }
  }

  lemma {:induction false} EarlierOutside(posts: seq<Posting>, from: nat, to: nat, day: nat)
    requires day <= from
    ensures Earlier(Outside(posts, from, to), day) == Earlier(posts, day)
  {
    if posts != [] {
      var n := |posts| - 1;
      EarlierOutside(posts[..n], from, to, day);
      EarlierConcat(Outside(posts[..n], from, to), [posts[n]], day);
    }
  }

  /** Payouts on or after the start of the calculation never reach it. */
  lemma {:induction false} StartSeesEarlierOnly(rule: Rule, prior: seq<Posting>, start: nat, to: nat)
    ensures Start(rule, prior, start, to) == Start(rule, Earlier(prior, start), start, to)
  {
    hide CapitalizationDate;
    if prior != [] {
      var n := |prior| - 1;
      StartSeesEarlierOnly(rule, prior[..n], start, to);
      if start <= prior[n].date && CapitalizationDate(rule, prior[n].date).Some? {
        CapitalizationDateIsDue(rule, prior[n].date);
      }
    }
  }

  /** The result depends only on the rule's payouts strictly before the start of the calculation. */
  lemma DependsOnEarlierOnly(book: Book, xs: seq<Posting>, ys: seq<Posting>, from: nat, to: nat)
    requires book.scale <= 6
    requires var start := StartOfCalculation(book.rule, from, to); Earlier(xs, start) == Earlier(ys, start)
    ensures Recalculated(book, xs, from, to) == Recalculated(book, ys, from, to)
  {
    hide Start, StartOfCalculation, Earlier, Run;
    var start := StartOfCalculation(book.rule, from, to);
    StartSeesEarlierOnly(book.rule, xs, start, to);
    StartSeesEarlierOnly(book.rule, ys, start, to);
  }

  /** What the choice of the first day guarantees. */
  ghost predicate GoodStart(rule: Rule, start: nat, from: nat, to: nat) {
    && start <= from
    && (forall d :: start <= d < from ==> !ShouldPost(rule, d))
    && (ActiveOn(rule, start) && PeriodStart(rule, start) != start ==>
          forall d :: start <= d <= to ==> !ShouldPost(rule, d))
  }

  lemma {:induction false} FirstPayoutStartIsGood(rule: Rule, from: nat, day: nat, to: nat)
    requires rule.accrual != AccrueDaily && from <= day
    requires forall d :: from <= d < day ==> !ShouldPost(rule, d)
    ensures GoodStart(rule, FirstPayoutStart(rule, from, day, to), from, to)
    decreases 1 + to - day
  {
    hide ShouldPost, PeriodStart;
    if day <= to {
      if ShouldPost(rule, day) {
        FoundPayout(rule, from, day, to);
      } else {
        FirstPayoutStartIsGood(rule, from, day + 1, to);
      }
    }
  }

  lemma FoundPayout(rule: Rule, from: nat, day: nat, to: nat)
    requires rule.accrual != AccrueDaily && from <= day && ShouldPost(rule, day)
    requires forall d :: from <= d < day ==> !ShouldPost(rule, d)
    ensures GoodStart(rule, MinDate(from, PeriodStart(rule, day)), from, to)
  {
    hide ShouldPost, PeriodStart;
    var start := MinDate(from, PeriodStart(rule, day));
    forall d | start <= d < from ensures !ShouldPost(rule, d) {
      PeriodHoldsOnePayout(rule, day, d);
    }
    PayoutIsActive(rule, day);
    PeriodStartIsActive(rule, day);
    if ActiveOn(rule, from) {
      PeriodOfNextPayout(rule, from, day);
    }
  }

  lemma CalculationStartIsGood(rule: Rule, from: nat, to: nat)
    ensures GoodStart(rule, StartOfCalculation(rule, from, to), from, to)
  {
    hide ShouldPost;
    if rule.accrual != AccrueDaily {
      FirstPayoutStartIsGood(rule, from, from, to);
    }
  }

  /** What every run of the loop keeps, whatever it starts from: payouts on payout days, in order. */
  ghost predicate Ordered(rule: Rule, out: seq<Posting>, start: nat, until: nat) {
    && Increasing(out) && OnSchedule(rule, out)
    && forall i :: 0 <= i < |out| ==> start <= out[i].date < until
  }

  lemma {:induction false} RunIsOrdered(book: Book, st: Loop, start: nat, until: nat)
    requires book.scale <= 6 && st.out == []
    ensures Ordered(book.rule, Run(book, st, start, until).out, start, until)
    decreases until
  {
    hide Step, ShouldPost;
    if start < until {
      RunIsOrdered(book, st, start, until - 1);
      StepEmits(book, Run(book, st, start, until - 1), until - 1);
    }
  }

  lemma StepEmits(book: Book, st: Loop, day: nat)
    requires book.scale <= 6
    ensures var out := Step(book, st, day).out;
            || out == st.out
            || (ShouldPost(book.rule, day) && exists amount :: amount > 0 && out == st.out + [Posting(day, amount)])
  {
    hide DayInterest, ShouldPost, ActiveOn, ShouldCapitalize;
    var amount := st.pending + DayInterest(book, st, day);
    var paid := st.out + [Posting(day, amount)];
    assert Step(book, st, day).out != st.out ==> Step(book, st, day).out == paid;
  }

  /** A recalculation emits strictly increasing payout days, all inside the requested range, although
      its loop may start before it. */
  lemma RecalculationStaysInRange(book: Book, prior: seq<Posting>, from: nat, to: nat)
    requires book.scale <= 6
    ensures Ordered(book.rule, Recalculated(book, prior, from, to).out, from, to + 1)
  {
    hide ShouldPost, StartOfCalculation, Start, Run;
    var start := StartOfCalculation(book.rule, from, to);
    var st := Start(book.rule, prior, start, to);
    EmptyStart(book.rule, prior, start, to);
    RunIsOrdered(book, st, start, to + 1);
    CalculationStartIsGood(book.rule, from, to);
    var out := Recalculated(book, prior, from, to).out;
    forall i | 0 <= i < |out| ensures from <= out[i].date {
      assert ShouldPost(book.rule, out[i].date);
    }
  }

  /** Repeating a recalculation changes nothing. */
  lemma RecalculationIsIdempotent(book: Book, posts: seq<Posting>, from: nat, to: nat)
    requires book.scale <= 6
    ensures Replaced(book, Replaced(book, posts, from, to), from, to) == Replaced(book, posts, from, to)
    ensures Recalculated(book, Replaced(book, posts, from, to), from, to).out ==
            Recalculated(book, Outside(posts, from, to), from, to).out
  {
    hide Outside, Recalculated, Earlier, ShouldPost;
    var kept := Outside(posts, from, to);
    var out := Recalculated(book, kept, from, to).out;
    RecalculationStaysInRange(book, kept, from, to);
    if from <= to {
      OutsideTwice(posts, from, to, to);
    }
    OutsideConcat(kept, out, from, to);
    OutsideFacts(out, from, to);
    OutsideFacts(posts, from, to);
    OutsideFacts(kept, from, to);
    assert kept + [] == kept;
    var start := StartOfCalculation(book.rule, from, to);
    CalculationStartIsGood(book.rule, from, to);
    EarlierConcat(kept, out, start);
    EarlierFacts(out, start);
    assert Earlier(kept + out, start) == Earlier(kept, start);
    DependsOnEarlierOnly(book, kept + out, kept, from, to);
  }

  lemma {:induction false} NoPayoutsInLoop(book: Book, st: Loop, start: nat, until: nat)
    requires book.scale <= 6 && st.out == []
    requires forall d :: start <= d < until ==> !ShouldPost(book.rule, d)
    ensures Run(book, st, start, until).out == []
    decreases until
  {
    hide DayInterest, ShouldPost, ActiveOn;
    if start < until {
      NoPayoutsInLoop(book, st, start, until - 1);
      assert !ShouldPost(book.rule, until - 1);
    }
  }

  lemma {:induction false} EarlierSkipsPayoutFree(rule: Rule, posts: seq<Posting>, start: nat, from: nat)
    requires OnSchedule(rule, posts) && start <= from
    requires forall d :: start <= d < from ==> !ShouldPost(rule, d)
    ensures Earlier(posts, start) == Earlier(posts, from)
  {
    hide ShouldPost;
    if posts != [] {
      EarlierSkipsPayoutFree(rule, posts[..|posts| - 1], start, from);
      assert ShouldPost(rule, posts[|posts| - 1].date);
    }
  }

  lemma EarlierOnSchedule(rule: Rule, posts: seq<Posting>, day: nat)
    requires OnSchedule(rule, posts)
    ensures OnSchedule(rule, Earlier(posts, day))
  {
    hide ShouldPost, Earlier;
    EarlierFacts(posts, day);
    forall i | 0 <= i < |Earlier(posts, day)|
      ensures ShouldPost(rule, Earlier(posts, day)[i].date) && Earlier(posts, day)[i].amount > 0
    {
      assert Earlier(posts, day)[i] in posts;
    }
  }

  /** With a history of the same rule and capitalization on time, a recalculation makes exactly the
      scheduled payouts of the range. */
  lemma RecalculationFollowsSchedule(book: Book, prior: seq<Posting>, from: nat, to: nat)
    requires book.scale <= 6 && OnSchedule(book.rule, prior) && from <= to
    requires FlushesOnTime(book, Earlier(prior, from), from, to)
    ensures Recalculated(book, prior, from, to).out == Schedule(book, Earlier(prior, from), from, to + 1)
  {
    hide ShouldPost, StartOfCalculation, Start, Run, Schedule, Earlier, FlushesOnTime, OnSchedule, PeriodStart,
      ActiveOn;
    var rule := book.rule;
    var start := StartOfCalculation(rule, from, to);
    var before := Earlier(prior, from);
    CalculationStartIsGood(rule, from, to);
    EarlierSkipsPayoutFree(rule, prior, start, from);
    StartSeesEarlierOnly(rule, prior, start, to);
    if forall d :: start <= d <= to ==> !ShouldPost(rule, d) {
      EmptyStart(rule, prior, start, to);
      NoPayoutsInLoop(book, Start(rule, prior, start, to), start, to + 1);
      NoPayoutDays(book, before, from, to + 1);
    } else {
      EarlierOnSchedule(rule, prior, from);
      EarlierFacts(prior, start);
      SameFlushCondition(book, before, start, from, to);
      OnTimeExactlyWhenFlushed(book, before, start, to);
      assert forall y :: start <= y < to + 1 ==> OnTime(book, before, LoopAt(book, before, start, y, to), y);
      OnTimeRunFollowsSchedule(book, before, start, to + 1, to);
      NoPayoutDays(book, before, start, from);
      ScheduleSplit(book, before, start, from, to + 1);
      assert before + [] == before;
    }
  }

  lemma EmptyStart(rule: Rule, prior: seq<Posting>, start: nat, to: nat)
    ensures Start(rule, prior, start, to).out == []
  {
  }

  lemma SameFlushCondition(book: Book, before: seq<Posting>, start: nat, from: nat, to: nat)
    requires book.scale <= 6 && FlushesOnTime(book, before, from, to)
    requires start == StartOfCalculation(book.rule, from, to)
    ensures FlushesOnTime(book, before, start, to)
  {
  }

  lemma FlushSplits(book: Book, before: seq<Posting>, a: nat, m: nat, b: nat)
    requires book.scale <= 6 && a <= m < b && FlushesOnTime(book, before, a, b)
    ensures FlushesOnTime(book, before, a, m)
    ensures FlushesOnTime(book, before + Schedule(book, before, a, m + 1), m + 1, b)
  {
    hide Schedule, HasDue, Interest, ActiveOn;
    var first := Schedule(book, before, a, m + 1);
    if CanFallBehind(book.rule) {
      var prior, start := before + first, m + 1;
      forall day | start <= day < b && ActiveOn(book.rule, day + 1)
                   && HasDue(book.rule, prior + Schedule(book, prior, start, day), day)
        ensures Interest(book, prior + Schedule(book, prior, start, day), day) > 0
      {
        ScheduleSplit(book, before, a, start, day);
        assert prior + Schedule(book, prior, start, day) == before + Schedule(book, before, a, day);
      }
    }
  }

  /** Two replacements, each capitalizing on time by itself, leave the schedule of the whole range. */
  lemma TwoReplacements(book: Book, posts: seq<Posting>, a: nat, m: nat, b: nat)
    requires book.scale <= 6 && OnSchedule(book.rule, posts) && a <= m < b
    requires var before := Earlier(posts, a);
             && FlushesOnTime(book, before, a, m)
             && FlushesOnTime(book, before + Schedule(book, before, a, m + 1), m + 1, b)
    ensures Replaced(book, Replaced(book, posts, a, m), m + 1, b) ==
            Outside(posts, a, b) + Schedule(book, Earlier(posts, a), a, b + 1)
  {
    hide Outside, Recalculated, Earlier, ShouldPost, Schedule, FlushesOnTime;
    var before := Earlier(posts, a);
    var first := Schedule(book, before, a, m + 1);
    var second := Schedule(book, before + first, m + 1, b + 1);
    OneReplacement(book, posts, a, m);
    ScheduleDates(book, before, a, m + 1);
    var posts' := Outside(posts, a, m) + first;
    OutsideOnSchedule(book.rule, posts, a, m);
    assert OnSchedule(book.rule, posts');
    EarlierAfterReplacement(posts, first, a, m);
    OneReplacement(book, posts', m + 1, b);
    OutsideConcat(Outside(posts, a, m), first, m + 1, b);
    OutsideTwice(posts, a, m, b);
    OutsideFacts(first, m + 1, b);
    ScheduleSplit(book, before, a, m + 1, b + 1);
    assert (Outside(posts, a, b) + first) + second == Outside(posts, a, b) + (first + second);
  }

  /** Recalculating [a, m] and then [m+1, b] leaves the payouts of [a, b] in one go, even when m cuts
      a month or a term in two. */
  lemma RecalculationSplits(book: Book, posts: seq<Posting>, a: nat, m: nat, b: nat)
    requires book.scale <= 6 && OnSchedule(book.rule, posts) && a <= m < b
    requires FlushesOnTime(book, Earlier(posts, a), a, b)
    ensures Replaced(book, Replaced(book, posts, a, m), m + 1, b) == Replaced(book, posts, a, b)
  {
    hide Outside, Recalculated, Earlier, ShouldPost, Schedule, FlushesOnTime, Replaced;
    FlushSplits(book, Earlier(posts, a), a, m, b);
    TwoReplacements(book, posts, a, m, b);
    OneReplacement(book, posts, a, b);
  }

  lemma OutsideOnSchedule(rule: Rule, posts: seq<Posting>, from: nat, to: nat)
    requires OnSchedule(rule, posts)
    ensures OnSchedule(rule, Outside(posts, from, to))
  {
    hide ShouldPost, Outside;
    OutsideFacts(posts, from, to);
    forall i | 0 <= i < |Outside(posts, from, to)|
      ensures ShouldPost(rule, Outside(posts, from, to)[i].date) && Outside(posts, from, to)[i].amount > 0
    {
      assert Outside(posts, from, to)[i] in posts;
    }
  }

  lemma EarlierAfterReplacement(posts: seq<Posting>, first: seq<Posting>, a: nat, m: nat)
    requires a <= m && forall i :: 0 <= i < |first| ==> a <= first[i].date < m + 1
    ensures Earlier(Outside(posts, a, m) + first, m + 1) == Earlier(posts, a) + first
  {
    hide Outside, Earlier;
    EarlierConcat(Outside(posts, a, m), first, m + 1);
    EarlierFacts(first, m + 1);
    EarlierOutsideUpTo(posts, a, m);
  }

  lemma {:induction false} EarlierOutsideUpTo(posts: seq<Posting>, a: nat, m: nat)
    requires a <= m
    ensures Earlier(Outside(posts, a, m), m + 1) == Earlier(posts, a)
  {
    if posts != [] {
      var n := |posts| - 1;
      EarlierOutsideUpTo(posts[..n], a, m);
      EarlierConcat(Outside(posts[..n], a, m), [posts[n]], m + 1);
    }
  }

  lemma OneReplacement(book: Book, posts: seq<Posting>, from: nat, to: nat)
    requires book.scale <= 6 && OnSchedule(book.rule, posts) && from <= to
    requires FlushesOnTime(book, Earlier(posts, from), from, to)
    ensures Replaced(book, posts, from, to) ==
            Outside(posts, from, to) + Schedule(book, Earlier(posts, from), from, to + 1)
  {
    hide Outside, Recalculated, Earlier, ShouldPost, Schedule, FlushesOnTime, OnSchedule;
    OutsideOnSchedule(book.rule, posts, from, to);
    EarlierOutside(posts, from, to, from);
    RecalculationFollowsSchedule(book, Outside(posts, from, to), from, to);
  }

  /** Day-by-day accrual and one recalculation from the start date agree payout by payout. */
  lemma IncrementalEqualsBatch(book: Book, to: nat)
    requires book.scale <= 6 && book.rule.startDate <= to
    requires FlushesOnTime(book, [], book.rule.startDate, to)
    requires AllWithin(Schedule(book, [], book.rule.startDate, to + 1), MAX_AMOUNT)
    ensures AccrueDays(book, [], book.rule.startDate, to + 1) ==
            Recalculated(book, [], book.rule.startDate, to).out
  {
    hide Recalculated, Schedule, FlushesOnTime, AccrueDays, AllWithin;
    DailyAttemptsFollowSchedule(book, to + 1);
    assert Earlier([], book.rule.startDate) == [];
    RecalculationFollowsSchedule(book, [], book.rule.startDate, to);
  }
}
