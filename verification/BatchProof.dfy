/** The batch loop against the schedule: what it always keeps, exactly when it capitalizes on time,
    and that it then makes the scheduled payouts. */
module BatchCorrectness {
  import opened Options
  import opened InterestRules
  import opened InterestSchedule
  import opened BatchRecalculation

  lemma {:induction false} AllCounted(posts: seq<Posting>, day: nat)
    requires Before(posts, day)
    ensures TotalUpTo(posts, day) == Total(posts)
  {
    if posts != [] {
      AllCounted(posts[..|posts| - 1], day);
    }
  }

  lemma {:induction false} DuePrincipalIsTotal(rule: Rule, posts: seq<Posting>, day: nat)
    requires forall i :: 0 <= i < |posts| ==> posts[i].date <= day && CapitalizedBefore(rule, posts[i].date, day)
    ensures Principal(rule, posts, day, day) == Total(posts)
  {
    hide CapitalizedBefore;
    if posts != [] {
      DuePrincipalIsTotal(rule, posts[..|posts| - 1], day);
    }
  }

  /** What the loop owes to principal is what is in `working`, or due in `waiting`, for this and
      every later day of the range. */
  ghost predicate Accounted(book: Book, prior: seq<Posting>, st: Loop, day: nat, to: nat) {
    && Before(prior + st.out, day) && OnSchedule(book.rule, prior + st.out)
    && Before(st.working, day) && Before(st.waiting, day) && OnSchedule(book.rule, st.waiting)
    && forall y :: day <= y <= to + 1 ==>
         Principal(book.rule, prior + st.out, y, y) == Total(st.working) + Principal(book.rule, st.waiting, y, y)
  }

  lemma {:induction false} StartPrincipal(rule: Rule, prior: seq<Posting>, start: nat, to: nat, y: nat)
    requires OnSchedule(rule, prior) && Before(prior, start) && start <= y <= to + 1
    ensures Principal(rule, prior, y, y) ==
            Total(CapitalizedPrior(rule, prior, start)) + Principal(rule, WaitingPrior(rule, prior, start, to), y, y)
  {
    if prior != [] {
      var n := |prior| - 1;
      var p, rest := prior[n], prior[..n];
      StartPrincipal(rule, rest, start, to, y);
      TotalSnoc(CapitalizedPrior(rule, rest, start), p);
      PrincipalSnoc(rule, WaitingPrior(rule, rest, start, to), p, y, y);
      PriorIsCounted(rule, p, start, to, y);
    }
  }

  lemma PriorIsCounted(rule: Rule, p: Posting, start: nat, to: nat, y: nat)
    requires ShouldPost(rule, p.date) && p.date < start && start <= y <= to + 1
    ensures CapitalizedBefore(rule, p.date, y) <==>
            || CapitalizedBefore(rule, p.date, start)
            || (rule.capitalization !in {NoCapitalization, CapitalizeDaily} && IsWaiting(rule, p, start, to)
              && CapitalizedBefore(rule, p.date, y))
    ensures CapitalizedBefore(rule, p.date, start) ==> !IsWaiting(rule, p, start, to)
  {
    hide LastActiveDayOfMonth;
  }

  lemma {:induction false} StartLists(rule: Rule, prior: seq<Posting>, start: nat, to: nat)
    requires OnSchedule(rule, prior) && Before(prior, start)
    ensures Before(CapitalizedPrior(rule, prior, start), start)
    ensures Before(WaitingPrior(rule, prior, start, to), start)
    ensures OnSchedule(rule, WaitingPrior(rule, prior, start, to))
  {
    hide CapitalizedBefore, IsWaiting, ShouldPost;
    if prior != [] {
      StartLists(rule, prior[..|prior| - 1], start, to);
    }
  }

  lemma StartIsAccounted(book: Book, prior: seq<Posting>, start: nat, to: nat)
    requires OnSchedule(book.rule, prior) && Before(prior, start)
    ensures Accounted(book, prior, Start(book.rule, prior, start, to), start, to)
  {
    hide Principal, CapitalizedPrior, WaitingPrior, OnSchedule, Before, Total;
    var st := Start(book.rule, prior, start, to);
    assert prior + st.out == prior;
    StartLists(book.rule, prior, start, to);
    forall y | start <= y <= to + 1
      ensures Principal(book.rule, prior + st.out, y, y) == Total(st.working) + Principal(book.rule, st.waiting, y, y)
    {
      StartPrincipal(book.rule, prior, start, to, y);
    }
  }

  /** On a capitalization day everything still waiting is due. */
  lemma WaitingIsDue(rule: Rule, p: nat, day: nat)
    requires ActiveOn(rule, p) && p <= day && ShouldCapitalize(rule, day) && ActiveOn(rule, day)
    ensures CapitalizedBefore(rule, p, day + 1)
  {
    hide Calendar.MonthStart, Calendar.MonthEnd;
    if rule.capitalization == CapitalizeMonthly {
      Calendar.MonthsOrdered(p, day);
    }
  }

  lemma DueSoon(rule: Rule, posts: seq<Posting>, day: nat, y: nat)
    requires OnSchedule(rule, posts) && Before(posts, day + 1)
    requires ShouldCapitalize(rule, day) && ActiveOn(rule, day) && day < y
    ensures Principal(rule, posts, y, y) == Total(posts)
  {
    hide ShouldPost, ShouldCapitalize;
    forall i | 0 <= i < |posts| ensures posts[i].date <= y && CapitalizedBefore(rule, posts[i].date, y) {
      PayoutIsActive(rule, posts[i].date);
      WaitingIsDue(rule, posts[i].date, day);
    }
    DuePrincipalIsTotal(rule, posts, y);
  }

  /** A payout keeps the accounts: whatever the capitalization mode does with it. */
  lemma PayoutIsAccounted(book: Book, prior: seq<Posting>, st: Loop, p: Posting, day: nat, to: nat)
    requires Accounted(book, prior, st, day, to) && p.date == day && p.amount > 0 && ShouldPost(book.rule, day)
    ensures Accounted(book, prior, Capitalize(book.rule, st.(out := st.out + [p], pending := 0), p, day), day + 1, to)
  {
    hide Principal, Total, ShouldPost, ShouldCapitalize;
    var rule := book.rule;
    var st' := Capitalize(rule, st.(out := st.out + [p], pending := 0), p, day);
    assert prior + st'.out == (prior + st.out) + [p];
    PayoutIsActive(rule, day);
    forall y | day + 1 <= y <= to + 1
      ensures Principal(rule, prior + st'.out, y, y) == Total(st'.working) + Principal(rule, st'.waiting, y, y)
    {
      PrincipalSnoc(rule, prior + st.out, p, y, y);
      PayoutCounts(rule, st, p, day, y);
    }
  }

  lemma PayoutCounts(rule: Rule, st: Loop, p: Posting, day: nat, y: nat)
    requires p.date == day && ActiveOn(rule, day) && day < y
    requires OnSchedule(rule, st.waiting) && Before(st.waiting, day) && ShouldPost(rule, day) && p.amount > 0
    ensures var st' := Capitalize(rule, st.(out := st.out + [p], pending := 0), p, day);
            Total(st'.working) + Principal(rule, st'.waiting, y, y) ==
            Total(st.working) + Principal(rule, st.waiting, y, y) +
            if CapitalizedBefore(rule, p.date, y) then p.amount else 0
  {
    hide Principal, Total, ShouldPost, ShouldCapitalize, LastActiveDayOfMonth;
    if rule.capitalization == CapitalizeDaily {
      TotalSnoc(st.working, p);
    } else if ShouldCapitalize(rule, day) {
      WaitingIsDue(rule, day, day);
      DueSoon(rule, st.waiting, day, y);
      TotalSnoc(st.waiting, p);
      TotalConcat(st.working, st.waiting + [p]);
      assert Principal(rule, [], y, y) == 0 by { NoPrincipal(rule, y); }
    } else {
      PrincipalSnoc(rule, st.waiting, p, y, y);
    }
  }

  lemma NoPrincipal(rule: Rule, y: nat)
    ensures Principal(rule, [], y, y) == 0
  {
  }

  lemma StepIsAccounted(book: Book, prior: seq<Posting>, st: Loop, day: nat, to: nat)
    requires book.scale <= 6 && Accounted(book, prior, st, day, to)
    ensures Accounted(book, prior, Step(book, st, day), day + 1, to)
  {
    hide DayInterest, ShouldPost, ActiveOn, Principal, Total, Capitalize;
    var amount := DayInterest(book, st, day);
    var st1 := if amount > 0 then st.(pending := st.pending + amount) else st.(skipped := st.skipped + 1);
    if ActiveOn(book.rule, day) && ShouldPost(book.rule, day) && st1.pending > 0 {
      PayoutIsAccounted(book, prior, st1, Posting(day, st1.pending), day, to);
    }
  }

  /** Whatever happens, no payout is lost: in every iteration each one is principal, waiting for its
      day, or never to be capitalized. */
  lemma {:induction false} RunIsAccounted(book: Book, prior: seq<Posting>, start: nat, day: nat, to: nat)
    requires book.scale <= 6 && start <= day && OnSchedule(book.rule, prior) && Before(prior, start)
    ensures Accounted(book, prior, Run(book, Start(book.rule, prior, start, to), start, day), day, to)
    decreases day
  {
    hide Accounted, Step, OnSchedule, Before;
    if day == start {
      StartIsAccounted(book, prior, start, to);
    } else {
      RunIsAccounted(book, prior, start, day - 1, to);
      StepIsAccounted(book, prior, Run(book, Start(book.rule, prior, start, to), start, day - 1), day - 1, to);
    }
  }

  ghost function LoopAt(book: Book, prior: seq<Posting>, start: nat, day: nat, to: nat): Loop
    requires book.scale <= 6
  {
    Run(book, Start(book.rule, prior, start, to), start, day)
  }

  /** On an active day the loop's principal is exactly what has capitalized before that day. */
  ghost predicate OnTime(book: Book, prior: seq<Posting>, st: Loop, day: nat) {
    ActiveOn(book.rule, day) ==>
      TotalUpTo(st.working, day) == Principal(book.rule, prior + st.out, day, day)
  }

  /** Being on time is having nothing overdue in `waiting`. */
  lemma OnTimeIsNothingOverdue(book: Book, prior: seq<Posting>, st: Loop, day: nat, to: nat)
    requires Accounted(book, prior, st, day, to) && day <= to + 1 && ActiveOn(book.rule, day)
    ensures OnTime(book, prior, st, day) <==> Principal(book.rule, st.waiting, day, day) == 0
  {
    AllCounted(st.working, day);
  }

  /** The open period's interest so far, and nothing before the rule starts. */
  ghost predicate PendingIsPeriod(book: Book, prior: seq<Posting>, st: Loop, day: nat)
    requires book.scale <= 6
  {
    && (day <= book.rule.startDate ==> st.pending == 0)
    && (ActiveOn(book.rule, day) ==>
          st.pending == PeriodInterest(book, prior + st.out, PeriodStart(book.rule, day), day))
  }

  lemma OnTimeInterest(book: Book, prior: seq<Posting>, st: Loop, day: nat)
    requires book.scale <= 6 && OnTime(book, prior, st, day) && ActiveOn(book.rule, day)
    ensures DayInterest(book, st, day) == Interest(book, prior + st.out, day)
  {
    hide DailyInterest, Principal, TotalUpTo;
  }

  lemma StepPays(book: Book, prior: seq<Posting>, st: Loop, day: nat)
    requires book.scale <= 6
    requires OnTime(book, prior, st, day) && PendingIsPeriod(book, prior, st, day)
    ensures Step(book, st, day).out == st.out + Payout(book, prior + st.out, day)
    ensures ActiveOn(book.rule, day) ==>
              Step(book, st, day).pending ==
              if ShouldPost(book.rule, day) then 0
              else PeriodInterest(book, prior + st.out, PeriodStart(book.rule, day), day + 1)
    ensures !ActiveOn(book.rule, day) ==> Step(book, st, day).pending == st.pending
  {
    hide ActiveOn, OnTime, DayInterest, Interest, PeriodStart;
    if ActiveOn(book.rule, day) {
      OnTimeInterest(book, prior, st, day);
      PeriodStartIsActive(book.rule, day);
      PeriodInterestStep(book, prior + st.out, PeriodStart(book.rule, day), day);
    } else if ShouldPost(book.rule, day) {
      PayoutIsActive(book.rule, day);
    }
  }

  lemma PeriodInterestStep(book: Book, posts: seq<Posting>, from: nat, day: nat)
    requires book.scale <= 6 && from <= day
    ensures PeriodInterest(book, posts, from, day + 1) ==
            PeriodInterest(book, posts, from, day) + Interest(book, posts, day)
  {
  }

  lemma StepKeepsPending(book: Book, prior: seq<Posting>, st: Loop, day: nat)
    requires book.scale <= 6
    requires OnTime(book, prior, st, day) && PendingIsPeriod(book, prior, st, day)
    ensures PendingIsPeriod(book, prior, Step(book, st, day), day + 1)
  {
    hide OnTime, Step, PeriodInterest, PeriodStart, ShouldPost;
    var st' := Step(book, st, day);
    StepPays(book, prior, st, day);
    if ActiveOn(book.rule, day + 1) {
      if ActiveOn(book.rule, day) {
        NextDayPeriod(book.rule, day);
        if ShouldPost(book.rule, day) {
          EmptyPeriod(book, prior + st'.out, day + 1);
        } else {
          assert st'.out == st.out;
        }
      } else {
        FirstDayPeriod(book.rule);
        EmptyPeriod(book, prior + st'.out, day + 1);
      }
    }
  }

  lemma FirstDayPeriod(rule: Rule)
    ensures PeriodStart(rule, rule.startDate) == rule.startDate
  {
  }

  /** While it is on time the loop makes the scheduled payouts, from any day a period may start. */
  lemma {:induction false} OnTimeRunFollowsSchedule(book: Book, prior: seq<Posting>, start: nat, day: nat, to: nat)
    requires book.scale <= 6 && start <= day
    requires ActiveOn(book.rule, start) ==> PeriodStart(book.rule, start) == start
    requires forall y :: start <= y < day ==> OnTime(book, prior, LoopAt(book, prior, start, y, to), y)
    ensures LoopAt(book, prior, start, day, to).out == Schedule(book, prior, start, day)
    ensures PendingIsPeriod(book, prior, LoopAt(book, prior, start, day, to), day)
    decreases day
  {
    hide Step, OnTime, PeriodStart, PeriodInterest, Payout, PendingIsPeriod;
    if day == start {
      StartIsPending(book, prior, start, to);
    } else {
      OnTimeRunFollowsSchedule(book, prior, start, day - 1, to);
      var st := LoopAt(book, prior, start, day - 1, to);
      assert OnTime(book, prior, st, day - 1);
      StepPays(book, prior, st, day - 1);
      StepKeepsPending(book, prior, st, day - 1);
    }
  }

  lemma StartIsPending(book: Book, prior: seq<Posting>, start: nat, to: nat)
    requires book.scale <= 6
    requires ActiveOn(book.rule, start) ==> PeriodStart(book.rule, start) == start
    ensures PendingIsPeriod(book, prior, Start(book.rule, prior, start, to), start)
  {
    EmptyPeriod(book, prior + [], start);
  }

  /** The one combination in which a payout can be left waiting past its capitalization day. */
  predicate CanFallBehind(rule: Rule) {
    rule.accrual == AccrueDaily && rule.capitalization == CapitalizeMonthly
  }

  /** Some payout is to be capitalized on `day`. */
  ghost predicate HasDue(rule: Rule, posts: seq<Posting>, day: nat) {
    exists i :: 0 <= i < |posts| && CapitalizationDate(rule, posts[i].date) == Some(day)
  }

  /** Interest is positive on every capitalization day that has something to capitalize and is
      followed by another day of the calculation. */
  ghost predicate FlushesOnTime(book: Book, prior: seq<Posting>, start: nat, to: nat)
    requires book.scale <= 6
  {
    CanFallBehind(book.rule) ==>
      forall day :: start <= day < to && ActiveOn(book.rule, day + 1)
                    && HasDue(book.rule, prior + Schedule(book, prior, start, day), day) ==>
                      Interest(book, prior + Schedule(book, prior, start, day), day) > 0
  }

  lemma {:induction false} PrincipalGrows(rule: Rule, posts: seq<Posting>, day: nat)
    requires OnSchedule(rule, posts) && Before(posts, day)
    ensures 0 <= Principal(rule, posts, day, day) <= Principal(rule, posts, day + 1, day + 1)
    ensures Principal(rule, posts, day, day) < Principal(rule, posts, day + 1, day + 1) <==> HasDue(rule, posts, day)
  {
    hide CapitalizationDate, ShouldPost;
    if posts != [] {
      var n := |posts| - 1;
      PrincipalGrows(rule, posts[..n], day);
      assert HasDue(rule, posts, day) <==>
             HasDue(rule, posts[..n], day) || CapitalizationDate(rule, posts[n].date) == Some(day) by {
        if HasDue(rule, posts, day) {
          var i :| 0 <= i < |posts| && CapitalizationDate(rule, posts[i].date) == Some(day);
          if i < n { assert posts[..n][i] == posts[i]; }
        }
        if CapitalizationDate(rule, posts[n].date) == Some(day) { assert posts[n].date == posts[n].date; }
      }
    }
  }

  /** Nothing waits before the rule starts. */
  lemma NothingWaitsBeforeStart(rule: Rule, posts: seq<Posting>, day: nat)
    requires OnSchedule(rule, posts) && Before(posts, day) && day <= rule.startDate
    ensures posts == []
  {
    hide IsLastActiveDayOfMonth;
    assert posts != [] ==> ShouldPost(rule, posts[0].date);
  }

  /** Outside the one delicate combination nothing waiting falls due on a day with a day after it. */
  lemma DueOnlyWhenDelicate(rule: Rule, payout: nat, day: nat)
    requires ShouldPost(rule, payout) && payout < day && ActiveOn(rule, day + 1)
    requires CapitalizationDate(rule, payout) == Some(day)
    ensures CanFallBehind(rule) && ShouldCapitalize(rule, day)
  {
    hide Calendar.MonthStart, Calendar.MonthEnd;
    CapitalizationDateIsDue(rule, payout);
  }

  lemma NewPayoutNotOverdue(rule: Rule, day: nat)
    requires !ShouldCapitalize(rule, day)
    ensures CapitalizationDate(rule, day) != Some(day)
  {
    if CapitalizationDate(rule, day) == Some(day) {
      CapitalizationDateIsDue(rule, day);
    }
  }

  lemma DueSeenInWaiting(book: Book, prior: seq<Posting>, st: Loop, day: nat, to: nat)
    requires Accounted(book, prior, st, day, to) && day <= to
    requires Principal(book.rule, st.waiting, day, day) == 0
    ensures HasDue(book.rule, prior + st.out, day) <==> HasDue(book.rule, st.waiting, day)
    ensures HasDue(book.rule, st.waiting, day) <==> Principal(book.rule, st.waiting, day + 1, day + 1) > 0
    ensures Principal(book.rule, st.waiting, day + 1, day + 1) >= 0
  {
    hide HasDue, Principal, Total;
    PrincipalGrows(book.rule, prior + st.out, day);
    PrincipalGrows(book.rule, st.waiting, day);
    assert Principal(book.rule, prior + st.out, day, day) ==
      Total(st.working) + Principal(book.rule, st.waiting, day, day);
  }

  /** What an active day leaves waiting, as principal of the next day. */
  lemma WaitingAfterStep(book: Book, prior: seq<Posting>, st: Loop, day: nat, to: nat)
    requires book.scale <= 6 && Accounted(book, prior, st, day, to) && day <= to
    requires ActiveOn(book.rule, day) && ActiveOn(book.rule, day + 1)
    requires OnTime(book, prior, st, day) && PendingIsPeriod(book, prior, st, day)
    ensures Principal(book.rule, Step(book, st, day).waiting, day + 1, day + 1) == 0 <==>
            (CanFallBehind(book.rule) && HasDue(book.rule, prior + st.out, day) ==>
              Interest(book, prior + st.out, day) > 0)
  {
    hide Principal, HasDue, Interest, Accounted, OnTime, PendingIsPeriod;
    var rule := book.rule;
    OnTimeIsNothingOverdue(book, prior, st, day, to);
    DueSeenInWaiting(book, prior, st, day, to);
    if HasDue(rule, st.waiting, day) {
      WaitingFlushes(book, prior, st, day, to);
      NoPrincipal(rule, day + 1);
    } else {
      WaitingStays(book, st, day);
    }
  }

  lemma WaitingStays(book: Book, st: Loop, day: nat)
    requires book.scale <= 6
    requires Principal(book.rule, st.waiting, day + 1, day + 1) == 0
    ensures Principal(book.rule, Step(book, st, day).waiting, day + 1, day + 1) == 0
  {
    hide DayInterest, ShouldPost, ShouldCapitalize, ActiveOn;
    var amount := DayInterest(book, st, day);
    var p := Posting(day, st.pending + amount);
    PrincipalSnoc(book.rule, st.waiting, p, day + 1, day + 1);
    if !ShouldCapitalize(book.rule, day) && CapitalizedBefore(book.rule, day, day + 1) {
      CapitalizationDateIsDue(book.rule, day);
      NewPayoutNotOverdue(book.rule, day);
    }
  }

  lemma WaitingFlushes(book: Book, prior: seq<Posting>, st: Loop, day: nat, to: nat)
    requires book.scale <= 6 && Accounted(book, prior, st, day, to) && day <= to
    requires ActiveOn(book.rule, day) && ActiveOn(book.rule, day + 1)
    requires OnTime(book, prior, st, day) && PendingIsPeriod(book, prior, st, day)
    requires HasDue(book.rule, st.waiting, day)
    ensures CanFallBehind(book.rule)
    ensures Step(book, st, day).waiting == if Interest(book, prior + st.out, day) > 0 then [] else st.waiting
  {
    hide Principal, Interest, DayInterest, OnTime, CapitalizationDate, ShouldCapitalize;
    var rule := book.rule;
    var i :| 0 <= i < |st.waiting| && CapitalizationDate(rule, st.waiting[i].date) == Some(day);
    DueOnlyWhenDelicate(rule, st.waiting[i].date, day);
    assert ShouldPost(rule, day);
    OnTimeInterest(book, prior, st, day);
    assert st.pending == 0 by {
      EmptyPeriod(book, prior + st.out, day);
    }
  }

  /** Exactly when one on-time day is followed by another. */
  lemma OnTimeNextDay(book: Book, prior: seq<Posting>, st: Loop, day: nat, to: nat)
    requires book.scale <= 6 && Accounted(book, prior, st, day, to) && day <= to
    requires OnTime(book, prior, st, day) && PendingIsPeriod(book, prior, st, day)
    requires ActiveOn(book.rule, day + 1)
    ensures OnTime(book, prior, Step(book, st, day), day + 1) <==>
            (CanFallBehind(book.rule) && HasDue(book.rule, prior + st.out, day) ==>
              Interest(book, prior + st.out, day) > 0)
  {
    hide Principal, HasDue, Interest, OnTime, PendingIsPeriod, OnSchedule, Before;
    StepIsAccounted(book, prior, st, day, to);
    OnTimeIsNothingOverdue(book, prior, Step(book, st, day), day + 1, to);
    if ActiveOn(book.rule, day) {
      WaitingAfterStep(book, prior, st, day, to);
    } else {
      NothingWaitsBeforeStart(book.rule, st.waiting, day);
      NothingWaitsBeforeStart(book.rule, prior + st.out, day);
      NoPrincipal(book.rule, day + 1);
      NothingDue(book.rule, day);
    }
  }

  lemma NothingDue(rule: Rule, day: nat)
    ensures !HasDue(rule, [], day)
  {
  }

  lemma StartIsOnTime(book: Book, prior: seq<Posting>, start: nat, to: nat)
    requires OnSchedule(book.rule, prior) && Before(prior, start) && start <= to + 1
    ensures OnTime(book, prior, Start(book.rule, prior, start, to), start)
  {
    hide Principal, Total, CapitalizedPrior, WaitingPrior, OnSchedule, Before;
    assert prior + [] == prior;
    StartPrincipal(book.rule, prior, start, to, start);
    StartLists(book.rule, prior, start, to);
    AllCounted(CapitalizedPrior(book.rule, prior, start), start);
    NothingOverdueAtStart(book.rule, prior, start, to);
  }

  lemma {:induction false} NothingOverdueAtStart(rule: Rule, prior: seq<Posting>, start: nat, to: nat)
    ensures Principal(rule, WaitingPrior(rule, prior, start, to), start, start) == 0
  {
    hide CapitalizationDate;
    if prior != [] {
      var n := |prior| - 1;
      NothingOverdueAtStart(rule, prior[..n], start, to);
      PrincipalSnoc(rule, WaitingPrior(rule, prior[..n], start, to), prior[n], start, start);
    }
  }

  ghost predicate AlwaysOnTime(book: Book, prior: seq<Posting>, start: nat, to: nat)
    requires book.scale <= 6
  {
    forall y :: start <= y <= to ==> OnTime(book, prior, LoopAt(book, prior, start, y, to), y)
  }

  /** The loop capitalizes on time on every day exactly when no capitalization day with something to
      capitalize is left without interest. */
  lemma OnTimeExactlyWhenFlushed(book: Book, prior: seq<Posting>, start: nat, to: nat)
    requires book.scale <= 6 && OnSchedule(book.rule, prior) && Before(prior, start)
    requires ActiveOn(book.rule, start) ==> PeriodStart(book.rule, start) == start
    ensures AlwaysOnTime(book, prior, start, to) <==> FlushesOnTime(book, prior, start, to)
  {
    hide OnTime, Interest, HasDue, ActiveOn, OnSchedule, Before, PeriodStart, Schedule, LoopAt;
    if FlushesOnTime(book, prior, start, to) {
      forall y | start <= y <= to ensures OnTime(book, prior, LoopAt(book, prior, start, y, to), y) {
        FlushedIsOnTime(book, prior, start, y, to);
      }
    }
    if AlwaysOnTime(book, prior, start, to) && CanFallBehind(book.rule) {
      forall day | start <= day < to && ActiveOn(book.rule, day + 1)
                   && HasDue(book.rule, prior + Schedule(book, prior, start, day), day)
        ensures Interest(book, prior + Schedule(book, prior, start, day), day) > 0
      {
        OnTimeIsFlushed(book, prior, start, day, to);
      }
    }
  }

  lemma OnTimeIsFlushed(book: Book, prior: seq<Posting>, start: nat, day: nat, to: nat)
    requires book.scale <= 6 && OnSchedule(book.rule, prior) && Before(prior, start)
    requires ActiveOn(book.rule, start) ==> PeriodStart(book.rule, start) == start
    requires AlwaysOnTime(book, prior, start, to) && start <= day < to && ActiveOn(book.rule, day + 1)
    requires CanFallBehind(book.rule) && HasDue(book.rule, prior + Schedule(book, prior, start, day), day)
    ensures Interest(book, prior + Schedule(book, prior, start, day), day) > 0
  {
    hide OnTime, Interest, HasDue, ActiveOn, OnSchedule, Before, PeriodStart, Schedule, Step, PendingIsPeriod;
    var st := LoopAt(book, prior, start, day, to);
    RunIsAccounted(book, prior, start, day, to);
    OnTimeRunFollowsSchedule(book, prior, start, day, to);
    assert OnTime(book, prior, LoopAt(book, prior, start, day, to), day);
    assert OnTime(book, prior, LoopAt(book, prior, start, day + 1, to), day + 1);
    OnTimeNextDay(book, prior, st, day, to);
  }

  lemma {:induction false} FlushedIsOnTime(book: Book, prior: seq<Posting>, start: nat, day: nat, to: nat)
    requires book.scale <= 6 && OnSchedule(book.rule, prior) && Before(prior, start)
    requires ActiveOn(book.rule, start) ==> PeriodStart(book.rule, start) == start
    requires FlushesOnTime(book, prior, start, day) && start <= day <= to
    ensures forall y :: start <= y <= day ==> OnTime(book, prior, LoopAt(book, prior, start, y, to), y)
    decreases day
  {
    hide OnTime, Interest, HasDue, ActiveOn, OnSchedule, Before, PeriodStart, Schedule, Step, PendingIsPeriod;
    if day == start {
      StartIsOnTime(book, prior, start, to);
    } else {
      FlushedIsOnTime(book, prior, start, day - 1, to);
      var st := LoopAt(book, prior, start, day - 1, to);
      RunIsAccounted(book, prior, start, day - 1, to);
      OnTimeRunFollowsSchedule(book, prior, start, day - 1, to);
      if ActiveOn(book.rule, day) {
        OnTimeNextDay(book, prior, st, day - 1, to);
      } else {
        InactiveIsOnTime(book, prior, LoopAt(book, prior, start, day, to), day);
      }
    }
  }

  lemma InactiveIsOnTime(book: Book, prior: seq<Posting>, st: Loop, day: nat)
    requires !ActiveOn(book.rule, day)
    ensures OnTime(book, prior, st, day)
  {
  }
}
