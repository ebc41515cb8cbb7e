/** The whole-range way: one loop over the days, carrying the interest of the open period, the
    payouts that already count as principal and those still waiting to be capitalized. */
module BatchRecalculation {
  import opened InterestRules
  import opened InterestSchedule

  datatype Loop = Loop(
    pending: nat,              // interest of the open period
    working: seq<Posting>,     // payouts counted as principal
    waiting: seq<Posting>,     // payouts waiting for their capitalization day
    out: seq<Posting>,         // payouts produced
    skipped: nat)              // days that earned nothing

  function TotalUpTo(posts: seq<Posting>, day: nat): int {
    if posts == [] then 0
    else
      var n := |posts| - 1;
      TotalUpTo(posts[..n], day) + if posts[n].date <= day then posts[n].amount else 0
  }

  function DayInterest(book: Book, st: Loop, day: nat): nat
    requires book.scale <= 6
  {
    DailyInterest(book.rule, book.scale, BaseBalance(book.base, day) + TotalUpTo(st.working, day), day)
  }

  /** Where a payout made on `day` goes. */
  function Capitalize(rule: Rule, st: Loop, p: Posting, day: nat): Loop {
    if rule.capitalization == CapitalizeDaily then st.(working := st.working + [p])
    else if ShouldCapitalize(rule, day) then
      st.(working := st.working + (st.waiting + [p]), waiting := [])
    else if rule.capitalization != NoCapitalization then st.(waiting := st.waiting + [p])
    else st
  }

  /** One iteration of the day loop. */
  function Step(book: Book, st: Loop, day: nat): Loop
    requires book.scale <= 6
  {
    if !ActiveOn(book.rule, day) then st.(skipped := st.skipped + 1)
    else
      var amount := DayInterest(book, st, day);
      var st := if amount > 0 then st.(pending := st.pending + amount) else st.(skipped := st.skipped + 1);
      if !ShouldPost(book.rule, day) || st.pending == 0 then st
      else
        var p := Posting(day, st.pending);
        Capitalize(book.rule, st.(out := st.out + [p], pending := 0), p, day)
  }

  /** The loop from day `from` up to but excluding `until`. */
  function Run(book: Book, st: Loop, from: nat, until: nat): Loop
    requires book.scale <= 6
    decreases until
  {
    if until <= from then st else Step(book, Run(book, st, from, until - 1), until - 1)
  }

  /** The day the loop starts at: the start of the first payout's period, if that is earlier. */
  function StartOfCalculation(rule: Rule, from: nat, to: nat): nat {
    if rule.accrual == AccrueDaily then from
    else FirstPayoutStart(rule, from, from, to)
  }

  function FirstPayoutStart(rule: Rule, from: nat, day: nat, to: nat): nat
    decreases 1 + to - day
  {
    if to < day then from
    else if ShouldPost(rule, day) then MinDate(from, PeriodStart(rule, day))
    else FirstPayoutStart(rule, from, day + 1, to)
  }

  function CapitalizedPrior(rule: Rule, posts: seq<Posting>, asOf: nat): seq<Posting> {
    if posts == [] then []
    else
      var n := |posts| - 1;
      var rest := CapitalizedPrior(rule, posts[..n], asOf);
      if CapitalizedBefore(rule, posts[n].date, asOf) then rest + [posts[n]] else rest
  }

  predicate IsWaiting(rule: Rule, p: Posting, from: nat, to: nat) {
    var c := CapitalizationDate(rule, p.date);
    p.date < from && c.Some? && from <= c.value <= to
  }

  function WaitingPrior(rule: Rule, posts: seq<Posting>, from: nat, to: nat): seq<Posting> {
    if posts == [] || rule.capitalization in {NoCapitalization, CapitalizeDaily} then []
    else
      var n := |posts| - 1;
      var rest := WaitingPrior(rule, posts[..n], from, to);
      if IsWaiting(rule, posts[n], from, to) then rest + [posts[n]] else rest
  }

  /** The loop's initial state, from the rule's payouts outside the recalculated range. */
  function Start(rule: Rule, prior: seq<Posting>, start: nat, to: nat): Loop {
    Loop(0, CapitalizedPrior(rule, prior, start), WaitingPrior(rule, prior, start, to), [], 0)
  }

  /** The recalculation of [from, to], `prior` being the rule's payouts outside that range. */
  function Recalculated(book: Book, prior: seq<Posting>, from: nat, to: nat): Loop
    requires book.scale <= 6
  {
    var start := StartOfCalculation(book.rule, from, to);
    Run(book, Start(book.rule, prior, start, to), start, to + 1)
  }
}
