/** What a rule owes, said once and independently of how it is computed.

    A `Book` fixes a rule and the account's flows other than the rule's own interest. Each active
    day earns interest on the base balance plus the earlier payouts that have become principal
    before that day; each payout day posts the sum over its whole period. Both ways the engine
    computes interest are measured against `Schedule`. */
module InterestSchedule {
  import opened Money
  import opened InterestRules

  datatype Flow = Flow(date: nat, delta: int)

  datatype Posting = Posting(date: nat, amount: int)

  datatype Book = Book(rule: Rule, scale: nat, base: seq<Flow>)

  function BaseBalance(base: seq<Flow>, day: nat): int {
    if base == [] then 0
    else
      var last := base[|base| - 1];
      BaseBalance(base[..|base| - 1], day) + if last.date <= day then last.delta else 0
  }

  function Total(posts: seq<Posting>): int {
    if posts == [] then 0 else Total(posts[..|posts| - 1]) + posts[|posts| - 1].amount
  }

  /** Payouts dated by `day` that are principal as of `asOf`. */
  function Principal(rule: Rule, posts: seq<Posting>, asOf: nat, day: nat): int {
    if posts == [] then 0
    else
      var last := posts[|posts| - 1];
      Principal(rule, posts[..|posts| - 1], asOf, day) +
      if last.date <= day && CapitalizedBefore(rule, last.date, asOf) then last.amount else 0
  }

  /** A day's interest on a balance: nothing on an inactive day or an empty account. */
  function DailyInterest(rule: Rule, scale: nat, balance: int, day: nat): nat
    requires scale <= 6
  {
    if !ActiveOn(rule, day) || balance <= 0 then 0
    else
      var amount := DailyInterestAmount(balance, EffectiveRateBps(rule, day), DaysInYear(rule.dayCount, day), scale);
      if amount <= 0 then 0 else amount
  }

  /** Interest of one day when the payouts capitalized before `asOf` count as principal. */
  function InterestAsOf(book: Book, posts: seq<Posting>, asOf: nat, day: nat): nat
    requires book.scale <= 6
  {
    DailyInterest(book.rule, book.scale,
                  BaseBalance(book.base, day) + Principal(book.rule, posts, asOf, day), day)
  }

  /** Interest of the days from `from` up to but excluding `until`, as of one fixed date. */
  function PeriodInterestAsOf(book: Book, posts: seq<Posting>, asOf: nat, from: nat, until: nat): nat
    requires book.scale <= 6
    decreases until
  {
    if until <= from then 0
    else PeriodInterestAsOf(book, posts, asOf, from, until - 1) + InterestAsOf(book, posts, asOf, until - 1)
  }

  /** The interest a day earns: on what is principal on that very day. */
  function Interest(book: Book, posts: seq<Posting>, day: nat): nat
    requires book.scale <= 6
  {
    InterestAsOf(book, posts, day, day)
  }

  function PeriodInterest(book: Book, posts: seq<Posting>, from: nat, until: nat): nat
    requires book.scale <= 6
    decreases until
  {
    if until <= from then 0
    else PeriodInterest(book, posts, from, until - 1) + Interest(book, posts, until - 1)
  }

  function Payout(book: Book, posts: seq<Posting>, day: nat): seq<Posting>
    requires book.scale <= 6
  {
    var amount := PeriodInterest(book, posts, PeriodStart(book.rule, day), day + 1);
    if ShouldPost(book.rule, day) && amount > 0 then [Posting(day, amount)] else []
  }

  /** Payouts of the days from `from` up to but excluding `until`, after earlier ones. */
  function Schedule(book: Book, prior: seq<Posting>, from: nat, until: nat): seq<Posting>
    requires book.scale <= 6
    decreases until
  {
    if until <= from then []
    else
      var earlier := Schedule(book, prior, from, until - 1);
      earlier + Payout(book, prior + earlier, until - 1)
  }

  /** A history a rule can have produced: positive payouts on its payout days. */
  ghost predicate OnSchedule(rule: Rule, posts: seq<Posting>) {
    forall i :: 0 <= i < |posts| ==> ShouldPost(rule, posts[i].date) && posts[i].amount > 0
  }

  ghost predicate Before(posts: seq<Posting>, day: nat) {
    forall i :: 0 <= i < |posts| ==> posts[i].date < day
  }

  ghost predicate Increasing(posts: seq<Posting>) {
    forall i, j :: 0 <= i < j < |posts| ==> posts[i].date < posts[j].date
  }

  lemma PrincipalSnoc(rule: Rule, posts: seq<Posting>, p: Posting, asOf: nat, day: nat)
    ensures Principal(rule, posts + [p], asOf, day) == Principal(rule, posts, asOf, day) +
            if p.date <= day && CapitalizedBefore(rule, p.date, asOf) then p.amount else 0
  {
    assert (posts + [p])[..|posts|] == posts;
  }

  lemma {:induction false} PrincipalConcat(rule: Rule, xs: seq<Posting>, ys: seq<Posting>, asOf: nat, day: nat)
    ensures Principal(rule, xs + ys, asOf, day) ==
            Principal(rule, xs, asOf, day) + Principal(rule, ys, asOf, day)
  {
    if ys == [] {
      assert xs + ys == xs;
    } else {
      var n := |ys| - 1;
      PrincipalConcat(rule, xs, ys[..n], asOf, day);
      assert xs + ys == (xs + ys[..n]) + [ys[n]];
      PrincipalSnoc(rule, xs + ys[..n], ys[n], asOf, day);
    }
  }

  lemma TotalSnoc(posts: seq<Posting>, p: Posting)
    ensures Total(posts + [p]) == Total(posts) + p.amount
  {
    assert (posts + [p])[..|posts|] == posts;
  }

  lemma {:induction false} TotalConcat(xs: seq<Posting>, ys: seq<Posting>)
    ensures Total(xs + ys) == Total(xs) + Total(ys)
  {
    if ys == [] {
      assert xs + ys == xs;
    } else {
      var n := |ys| - 1;
      TotalConcat(xs, ys[..n]);
      assert xs + ys == (xs + ys[..n]) + [ys[n]];
      TotalSnoc(xs + ys[..n], ys[n]);
    }
  }

  /** A payout dated on or after a day is not principal on it. */
  lemma LaterPayoutsDoNotCount(rule: Rule, posts: seq<Posting>, day: nat)
    requires forall i :: 0 <= i < |posts| ==> day <= posts[i].date
    ensures Principal(rule, posts, day, day) == 0
  {
    if posts != [] {
      var n := |posts| - 1;
      LaterPayoutsDoNotCount(rule, posts[..n], day);
      if CapitalizedBefore(rule, posts[n].date, day) {
        CapitalizationDateIsDue(rule, posts[n].date);
      }
    }
  }

  lemma InterestIgnoresLater(book: Book, posts: seq<Posting>, later: seq<Posting>, day: nat)
    requires book.scale <= 6
    requires forall i :: 0 <= i < |later| ==> day <= later[i].date
    ensures Interest(book, posts + later, day) == Interest(book, posts, day)
  {
    PrincipalConcat(book.rule, posts, later, day, day);
    LaterPayoutsDoNotCount(book.rule, later, day);
  }

  lemma {:induction false} PeriodInterestIgnoresLater(
      book: Book, posts: seq<Posting>, later: seq<Posting>, from: nat, until: nat)
    requires book.scale <= 6
    requires forall i :: 0 <= i < |later| ==> until <= later[i].date + 1
    ensures PeriodInterest(book, posts + later, from, until) == PeriodInterest(book, posts, from, until)
    decreases until
  {
    if from < until {
      PeriodInterestIgnoresLater(book, posts, later, from, until - 1);
      InterestIgnoresLater(book, posts, later, until - 1);
    }
  }

  lemma EmptyPeriod(book: Book, posts: seq<Posting>, day: nat)
    requires book.scale <= 6
    ensures PeriodInterest(book, posts, day, day) == 0
  {
  }

  lemma {:induction false} PeriodInterestSplit(book: Book, posts: seq<Posting>, from: nat, mid: nat, until: nat)
    requires book.scale <= 6 && from <= mid <= until
    ensures PeriodInterest(book, posts, from, until) ==
            PeriodInterest(book, posts, from, mid) + PeriodInterest(book, posts, mid, until)
    decreases until
  {
    if mid < until {
      PeriodInterestSplit(book, posts, from, mid, until - 1);
    }
  }

  /** Payouts are positive, on payout days inside the range, and strictly increase in date. */
  lemma {:induction false} ScheduleDates(book: Book, prior: seq<Posting>, from: nat, until: nat)
    requires book.scale <= 6
    ensures var s := Schedule(book, prior, from, until);
            && OnSchedule(book.rule, s) && Increasing(s)
            && (forall i :: 0 <= i < |s| ==> from <= s[i].date < until)
    decreases until
  {
    hide ShouldPost, PeriodInterest, PeriodStart;
    if from < until {
      ScheduleDates(book, prior, from, until - 1);
    }
  }

  /** Each amount is the interest of the payout's whole period, given the payouts before it. */
  ghost predicate PaysWholePeriods(book: Book, prior: seq<Posting>, s: seq<Posting>)
    requires book.scale <= 6
  {
    forall i :: 0 <= i < |s| ==>
      s[i].amount == PeriodInterest(book, prior + s[..i], PeriodStart(book.rule, s[i].date), s[i].date + 1)
  }

  lemma {:induction false} ScheduleAmounts(book: Book, prior: seq<Posting>, from: nat, until: nat)
    requires book.scale <= 6
    ensures PaysWholePeriods(book, prior, Schedule(book, prior, from, until))
    decreases until
  {
    hide ShouldPost, PeriodInterest, PeriodStart;
    if from < until {
      ScheduleAmounts(book, prior, from, until - 1);
      var earlier := Schedule(book, prior, from, until - 1);
      var next := Payout(book, prior + earlier, until - 1);
      if next == [] {
        assert earlier + next == earlier;
      } else {
        WholePeriodsSnoc(book, prior, earlier, next[0]);
      }
    }
  }

  lemma WholePeriodsSnoc(book: Book, prior: seq<Posting>, s: seq<Posting>, p: Posting)
    requires book.scale <= 6 && PaysWholePeriods(book, prior, s)
    requires p.amount == PeriodInterest(book, prior + s, PeriodStart(book.rule, p.date), p.date + 1)
    ensures PaysWholePeriods(book, prior, s + [p])
  {
    var t := s + [p];
    assert t[..|s|] == s;
    forall i | 0 <= i < |t|
      ensures t[i].amount == PeriodInterest(book, prior + t[..i], PeriodStart(book.rule, t[i].date), t[i].date + 1)
    {
      if i < |s| {
        assert t[..i] == s[..i];
      }
    }
  }

  /** A range may be computed in two goes, the second after the payouts of the first. */
  lemma {:induction false} ScheduleSplit(book: Book, prior: seq<Posting>, from: nat, mid: nat, until: nat)
    requires book.scale <= 6 && from <= mid <= until
    ensures var first := Schedule(book, prior, from, mid);
            Schedule(book, prior, from, until) == first + Schedule(book, prior + first, mid, until)
    decreases until
  {
    hide Payout;
    var first := Schedule(book, prior, from, mid);
    if mid < until {
      ScheduleSplit(book, prior, from, mid, until - 1);
      var rest := Schedule(book, prior + first, mid, until - 1);
      assert prior + (first + rest) == (prior + first) + rest;
    }
  }

  /** A stretch without payout days owes nothing yet. */
  lemma {:induction false} NoPayoutDays(book: Book, prior: seq<Posting>, from: nat, until: nat)
    requires book.scale <= 6
    requires forall d :: from <= d < until ==> !ShouldPost(book.rule, d)
    ensures Schedule(book, prior, from, until) == []
    decreases until
  {
    if from < until {
      NoPayoutDays(book, prior, from, until - 1);
      assert !ShouldPost(book.rule, until - 1);
    }
  }
}
