/** The day-by-day way: each payout is computed when its day comes, from the payouts already made. */
module IncrementalAccrual {
  import opened Money
  import opened InterestRules
  import opened InterestSchedule

  /** The start of the next period as the engine's loop finds it, scanning payouts left to right. */
  function LatestStart(start: nat, posts: seq<Posting>, day: nat): nat {
    if posts == [] then start
    else
      var n := |posts| - 1;
      var s := LatestStart(start, posts[..n], day);
      if posts[n].date < day && s <= posts[n].date then posts[n].date + 1 else s
  }

  function NextPeriodStart(rule: Rule, posts: seq<Posting>, day: nat): nat {
    if rule.accrual == AccrueDaily then day else LatestStart(rule.startDate, posts, day)
  }

  /** `r` is the later of the rule start and the day after the last payout before `day`. */
  ghost predicate IsDayAfterLast(start: nat, posts: seq<Posting>, day: nat, r: nat) {
    && start <= r
    && (forall i :: 0 <= i < |posts| && posts[i].date < day ==> posts[i].date < r)
    && (r == start || exists i :: 0 <= i < |posts| && posts[i].date < day && r == posts[i].date + 1)
  }

  lemma {:induction false} LatestStartIsDayAfterLast(start: nat, posts: seq<Posting>, day: nat)
    ensures IsDayAfterLast(start, posts, day, LatestStart(start, posts, day))
  {
    if posts != [] {
      var n := |posts| - 1;
      LatestStartIsDayAfterLast(start, posts[..n], day);
      var s, r := LatestStart(start, posts[..n], day), LatestStart(start, posts, day);
      if r == posts[n].date + 1 && posts[n].date < day {
      } else if s != start {
        var i :| 0 <= i < n && posts[i].date < day && s == posts[i].date + 1;
        assert posts[i] == posts[..n][i];
      }
      forall i | 0 <= i < |posts| && posts[i].date < day ensures posts[i].date < r {
        if i < n { assert posts[i] == posts[..n][i]; }
      }
    }
  }

  /** The order of the payout list does not matter. */
  lemma NextPeriodStartIgnoresOrder(rule: Rule, xs: seq<Posting>, ys: seq<Posting>, day: nat)
    requires forall p :: p in xs <==> p in ys
    ensures NextPeriodStart(rule, xs, day) == NextPeriodStart(rule, ys, day)
  {
    var r, s := LatestStart(rule.startDate, xs, day), LatestStart(rule.startDate, ys, day);
    LatestStartIsDayAfterLast(rule.startDate, xs, day);
    LatestStartIsDayAfterLast(rule.startDate, ys, day);
    if r != rule.startDate {
      var i :| 0 <= i < |xs| && xs[i].date < day && r == xs[i].date + 1;
      assert xs[i] in ys;
    }
    if s != rule.startDate {
      var i :| 0 <= i < |ys| && ys[i].date < day && s == ys[i].date + 1;
      assert ys[i] in xs;
    }
  }

  ghost predicate HasPosting(posts: seq<Posting>, day: nat) {
    exists i :: 0 <= i < |posts| && posts[i].date == day
  }

  /** What the engine charges on a payout day: the interest since the last payout, with everything
      capitalized before the payout day as principal. */
  function AmountDue(book: Book, posts: seq<Posting>, day: nat): nat
    requires book.scale <= 6
  {
    PeriodInterestAsOf(book, posts, day, NextPeriodStart(book.rule, posts, day), day + 1)
  }

  /** One accrual attempt. Validation errors post nothing. */
  ghost function AccrueDay(book: Book, posts: seq<Posting>, day: nat): seq<Posting>
    requires book.scale <= 6
  {
    if ShouldPost(book.rule, day) && !HasPosting(posts, day) && 0 < AmountDue(book, posts, day) <= MAX_AMOUNT
    then posts + [Posting(day, AmountDue(book, posts, day))]
    else posts
  }

  /** An attempt on every day from `from` up to but excluding `until`. */
  ghost function AccrueDays(book: Book, posts: seq<Posting>, from: nat, until: nat): seq<Posting>
    requires book.scale <= 6
    decreases until
  {
    if until <= from then posts else AccrueDay(book, AccrueDays(book, posts, from, until - 1), until - 1)
  }

  ghost predicate AllWithin(posts: seq<Posting>, bound: int) {
    forall i :: 0 <= i < |posts| ==> posts[i].amount <= bound
  }

  /** For payouts made before a period, principal as of the payout day is principal as of each day. */
  lemma {:induction false} SettledPrincipal(rule: Rule, posts: seq<Posting>, day: nat, later: nat)
    requires OnSchedule(rule, posts) && Before(posts, day) && rule.accrual != AccrueDaily
    requires day <= later && ActiveOn(rule, later)
    ensures Principal(rule, posts, later, day) == Principal(rule, posts, day, day)
  {
    hide ShouldPost, CapitalizedBefore;
    if posts != [] {
      var n := |posts| - 1;
      SettledPrincipal(rule, posts[..n], day, later);
      PayoutSettled(rule, posts[n].date, day, later);
    }
  }

  lemma {:induction false} SettledPeriod(book: Book, posts: seq<Posting>, from: nat, until: nat, payout: nat)
    requires book.scale <= 6 && book.rule.accrual != AccrueDaily
    requires OnSchedule(book.rule, posts) && Before(posts, from)
    requires ActiveOn(book.rule, payout) && until <= payout + 1
    ensures PeriodInterestAsOf(book, posts, payout, from, until) == PeriodInterest(book, posts, from, until)
    decreases until
  {
    hide DailyInterest, Principal, OnSchedule;
    if from < until {
      SettledPeriod(book, posts, from, until - 1, payout);
      SettledPrincipal(book.rule, posts, until - 1, payout);
    }
  }

  /** Days already attempted without a payout owe nothing to the current period. */
  ghost predicate NothingOwed(book: Book, posts: seq<Posting>, day: nat)
    requires book.scale <= 6
  {
    book.rule.accrual != AccrueDaily && ActiveOn(book.rule, day) ==>
      var from, start := NextPeriodStart(book.rule, posts, day), PeriodStart(book.rule, day);
      from <= start && PeriodInterest(book, posts, from, start) == 0
  }

  lemma StartNotAfterPeriod(rule: Rule, posts: seq<Posting>, day: nat)
    requires OnSchedule(rule, posts) && Before(posts, day) && ShouldPost(rule, day)
    ensures Before(posts, NextPeriodStart(rule, posts, day))
  {
    hide ShouldPost;
    LatestStartIsDayAfterLast(rule.startDate, posts, day);
  }

  /** With nothing owed from before, the engine charges exactly the payout's own period. */
  lemma AmountDueIsPeriod(book: Book, posts: seq<Posting>, day: nat)
    requires book.scale <= 6 && ShouldPost(book.rule, day)
    requires OnSchedule(book.rule, posts) && Before(posts, day) && NothingOwed(book, posts, day)
    ensures AmountDue(book, posts, day) == PeriodInterest(book, posts, PeriodStart(book.rule, day), day + 1)
  {
    hide PeriodInterest, ShouldPost, OnSchedule, InterestAsOf, PeriodInterestAsOf;
    if book.rule.accrual == AccrueDaily {
      SingleDay(book, posts, day);
    } else {
      var from, start := NextPeriodStart(book.rule, posts, day), PeriodStart(book.rule, day);
      assert ActiveOn(book.rule, day) by { PayoutIsActive(book.rule, day); }
      StartNotAfterPeriod(book.rule, posts, day);
      SettledPeriod(book, posts, from, day + 1, day);
      PeriodHoldsOnePayout(book.rule, day, day);
      PeriodInterestSplit(book, posts, from, start, day + 1);
    }
  }

  lemma SingleDay(book: Book, posts: seq<Posting>, day: nat)
    requires book.scale <= 6
    ensures PeriodInterestAsOf(book, posts, day, day, day + 1) == PeriodInterest(book, posts, day, day + 1)
  {
    hide InterestAsOf;
    assert PeriodInterestAsOf(book, posts, day, day, day) == 0 == PeriodInterest(book, posts, day, day);
  }

  lemma LatestStartSnoc(start: nat, posts: seq<Posting>, p: Posting, day: nat)
    requires Before(posts, p.date) && start <= p.date < day
    ensures LatestStart(start, posts + [p], day) == p.date + 1
  {
    LatestStartIsDayAfterLast(start, posts + [p], day);
    var posts' := posts + [p];
    assert posts'[|posts|] == p;
  }

  lemma LatestStartLater(start: nat, posts: seq<Posting>, day: nat, later: nat)
    requires Before(posts, day) && day <= later
    ensures LatestStart(start, posts, day) == LatestStart(start, posts, later)
  {
    if posts != [] {
      LatestStartLater(start, posts[..|posts| - 1], day, later);
    }
  }

  /** The invariant of the run moves on by one day. */
  lemma NothingOwedNextDay(book: Book, posts: seq<Posting>, day: nat)
    requires book.scale <= 6 && book.rule.startDate <= day
    requires OnSchedule(book.rule, posts) && Before(posts, day) && NothingOwed(book, posts, day)
    ensures NothingOwed(book, posts + Payout(book, posts, day), day + 1)
  {
    hide PeriodInterest, PeriodStart, ShouldPost, OnSchedule;
    var rule := book.rule;
    if rule.accrual != AccrueDaily && ActiveOn(rule, day + 1) {
      assert ActiveOn(rule, day);
      var from, start := NextPeriodStart(rule, posts, day), PeriodStart(rule, day);
      var posts' := posts + Payout(book, posts, day);
      NextDayPeriod(rule, day);
      LatestStartLater(rule.startDate, posts, day, day + 1);
      if posts' != posts {
        LatestStartSnoc(rule.startDate, posts, posts'[|posts|], day + 1);
        EmptyPeriod(book, posts', day + 1);
      } else if ShouldPost(rule, day) {
        PeriodHoldsOnePayout(rule, day, day);
        PeriodInterestSplit(book, posts, from, start, day + 1);
      }
    }
  }

  /** Attempting an accrual on every day makes exactly the scheduled payouts. */
  lemma {:induction false} DailyAttemptsFollowSchedule(book: Book, until: nat)
    requires book.scale <= 6
    requires AllWithin(Schedule(book, [], book.rule.startDate, until), MAX_AMOUNT)
    ensures AccrueDays(book, [], book.rule.startDate, until) == Schedule(book, [], book.rule.startDate, until)
    ensures NothingOwed(book, Schedule(book, [], book.rule.startDate, until), MaxDate(until, book.rule.startDate))
    decreases until
  {
    hide AccrueDay, Payout, NothingOwed, ShouldPost, OnSchedule;
    var start := book.rule.startDate;
    var s := Schedule(book, [], start, until);
    if until <= start {
      NothingOwedAtStart(book);
    } else {
      var day := until - 1;
      var earlier := Schedule(book, [], start, day);
      assert [] + earlier == earlier;
      assert s == earlier + Payout(book, earlier, day);
      assert AllWithin(earlier, MAX_AMOUNT) by {
        forall i | 0 <= i < |earlier| ensures earlier[i].amount <= MAX_AMOUNT { assert earlier[i] == s[i]; }
      }
      DailyAttemptsFollowSchedule(book, day);
      ScheduleDates(book, [], start, day);
      AttemptMakesPayout(book, earlier, day);
      NothingOwedNextDay(book, earlier, day);
    }
  }

  lemma NothingOwedAtStart(book: Book)
    requires book.scale <= 6
    ensures NothingOwed(book, [], book.rule.startDate)
  {
    if book.rule.accrual != AccrueDaily && ActiveOn(book.rule, book.rule.startDate) {
      PeriodStartIsActive(book.rule, book.rule.startDate);
      EmptyPeriod(book, [], book.rule.startDate);
    }
  }

  lemma AttemptMakesPayout(book: Book, posts: seq<Posting>, day: nat)
    requires book.scale <= 6
    requires OnSchedule(book.rule, posts) && Before(posts, day) && NothingOwed(book, posts, day)
    requires AllWithin(posts + Payout(book, posts, day), MAX_AMOUNT)
    ensures AccrueDay(book, posts, day) == posts + Payout(book, posts, day)
  {
    hide AmountDue, NothingOwed, ShouldPost, PeriodInterest, OnSchedule;
    if ShouldPost(book.rule, day) {
      AmountDueIsPeriod(book, posts, day);
      var paid := posts + Payout(book, posts, day);
      if paid != posts {
        assert paid[|posts|].amount <= MAX_AMOUNT;
      }
    }
  }
}
