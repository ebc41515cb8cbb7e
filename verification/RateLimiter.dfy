/** The per-client rate limiter: fixed windows in a map of bounded size, with eviction when it is full,
    against the same limiter on a map that never forgets. */
module RateLimiter {
  /** Times are instants of the clock; 0 is its zero value, which no request carries. */
  datatype Bucket = Bucket(windowStart: int, count: nat)

  type Buckets = map<string, Bucket>

  const MIN_BUCKETS := 1024
  const MAX_BUCKETS := 65536

  function Capacity(limit: int): (n: nat)
    ensures 1024 <= n <= 65536
    ensures n == 65536 || n >= 8 * limit
    ensures n == 1024 || n <= 8 * limit
  {
    if limit <= 0 then MIN_BUCKETS
    else if limit > MAX_BUCKETS / 8 then MAX_BUCKETS
    else if limit * 8 < MIN_BUCKETS then MIN_BUCKETS
    else limit * 8
  }

  predicate WindowOver(b: Bucket, now: int, window: int) {
    now - b.windowStart >= window
  }

  /** The client's bucket after one more request. */
  function Hit(m: Buckets, key: string, now: int, window: int): Bucket {
    if key !in m || m[key].windowStart == 0 || WindowOver(m[key], now, window) then Bucket(now, 1)
    else Bucket(m[key].windowStart, m[key].count + 1)
  }

  function Live(m: Buckets, now: int, window: int): Buckets {
    map k | k in m && !WindowOver(m[k], now, window) :: m[k]
  }

  /** A request, with the bucket that is dropped if even the live ones fill the map. */
  datatype Request = Request(key: string, now: int, victim: string)

  predicate IsFull(m: Buckets, key: string, limit: int) {
    key !in m && |m| >= Capacity(limit)
  }

  predicate Evicts(m: Buckets, r: Request, limit: int, window: int) {
    IsFull(m, r.key, limit) && |Live(m, r.now, window)| >= Capacity(limit)
  }

  function MakeRoom(m: Buckets, r: Request, limit: int, window: int): Buckets {
    if !IsFull(m, r.key, limit) then m
    else if Evicts(m, r, limit, window) then Live(m, r.now, window) - {r.victim}
    else Live(m, r.now, window)
  }

  function Bounded(m: Buckets, r: Request, limit: int, window: int): Buckets {
    var room := MakeRoom(m, r, limit, window);
    room[r.key := Hit(room, r.key, r.now, window)]
  }

  function Unbounded(m: Buckets, r: Request, window: int): Buckets {
    m[r.key := Hit(m, r.key, r.now, window)]
  }

  // ---- Runs

  function BoundedRun(requests: seq<Request>, limit: int, window: int): Buckets {
    if requests == [] then map[]
    else Bounded(BoundedRun(requests[..|requests| - 1], limit, window), requests[|requests| - 1], limit, window)
  }

  function UnboundedRun(requests: seq<Request>, window: int): Buckets {
    if requests == [] then map[]
    else Unbounded(UnboundedRun(requests[..|requests| - 1], window), requests[|requests| - 1], window)
  }

  predicate Admits(m: Buckets, key: string, limit: int) {
    key in m && m[key].count <= limit
  }

  /** The victim of an eviction is a bucket of the map. */
  ghost predicate RealVictim(m: Buckets, r: Request, limit: int, window: int) {
    Evicts(m, r, limit, window) ==> r.victim in Live(m, r.now, window)
  }

  ghost predicate RealVictims(requests: seq<Request>, limit: int, window: int) {
    forall n {:trigger requests[n]} :: 0 <= n < |requests| ==>
      RealVictim(BoundedRun(requests[..n], limit, window), requests[n], limit, window)
  }

  lemma FewerKeys(m: Buckets, kept: Buckets)
    requires kept.Keys <= m.Keys
    ensures |kept| <= |m|
  {
    SubsetSize(kept.Keys, m.Keys);
    assert |kept| == |kept.Keys| && |m| == |m.Keys|;
  }

  lemma SubsetSize<T>(a: set<T>, b: set<T>)
    requires a <= b
    ensures |a| <= |b|
  {
    if a != {} {
      var x :| x in a;
      SubsetSize(a - {x}, b - {x});
    }
  }

  lemma InsertSize(m: Buckets, key: string, b: Bucket)
    ensures |m[key := b]| == if key in m then |m| else |m| + 1
  {
    assert m[key := b].Keys == m.Keys + {key};
    assert |m[key := b]| == |m.Keys + {key}|;
  }

  lemma BoundedStaysInCapacity(m: Buckets, r: Request, limit: int, window: int)
    requires |m| <= Capacity(limit) && RealVictim(m, r, limit, window)
    ensures |Bounded(m, r, limit, window)| <= Capacity(limit)
  {
    var live := Live(m, r.now, window);
    FewerKeys(m, live);
    var room := MakeRoom(m, r, limit, window);
    InsertSize(room, r.key, Hit(room, r.key, r.now, window));
    if Evicts(m, r, limit, window) {
      assert room.Keys == live.Keys - {r.victim};
      assert |room| == |room.Keys| == |live.Keys| - 1;
    }
  }

  /** The map never grows beyond its capacity, on any run. */
  lemma {:induction false} NeverOverCapacity(requests: seq<Request>, limit: int, window: int)
    requires RealVictims(requests, limit, window)
    ensures |BoundedRun(requests, limit, window)| <= Capacity(limit)
  {
    hide Bounded, RealVictim, Capacity;
    if requests != [] {
      var n := |requests| - 1;
      var before := requests[..n];
      assert RealVictims(before, limit, window) by {
        forall k | 0 <= k < |before| ensures RealVictim(BoundedRun(before[..k], limit, window), before[k], limit,
          window) {
          assert before[..k] == requests[..k] && before[k] == requests[k];
        }
      }
      NeverOverCapacity(before, limit, window);
      assert RealVictim(BoundedRun(requests[..n], limit, window), requests[n], limit, window);
      BoundedStaysInCapacity(BoundedRun(before, limit, window), requests[n], limit, window);
    }
  }

  // ---- Forgetting expired buckets changes no decision

  ghost predicate Monotone(requests: seq<Request>) {
    && (forall i :: 0 <= i < |requests| ==> requests[i].now > 0)
    && forall i, j :: 0 <= i < j < |requests| ==> requests[i].now <= requests[j].now
  }

  /** The client's bucket is never the one dropped for lack of room, whoever else's is. */
  ghost predicate NeverDropped(requests: seq<Request>, key: string, limit: int, window: int) {
    forall n {:trigger requests[n]} :: 0 <= n < |requests| ==>
      !Drops(BoundedRun(requests[..n], limit, window), requests[n], key, limit, window)
  }

  predicate Drops(m: Buckets, r: Request, key: string, limit: int, window: int) {
    Evicts(m, r, limit, window) && r.victim == key
  }

  /** A client's bucket is the same in both maps, or only the unbounded map still has it and it is over. */
  ghost predicate Agrees(bounded: Buckets, unbounded: Buckets, key: string, now: int, window: int) {
    if key in bounded then key in unbounded && bounded[key] == unbounded[key]
    else key in unbounded ==> WindowOver(unbounded[key], now, window)
  }

  lemma StepAgrees(bounded: Buckets, unbounded: Buckets, r: Request, key: string, before: int, limit: int, window: int)
    requires Agrees(bounded, unbounded, key, before, window) && before <= r.now
            && !Drops(bounded, r, key, limit, window)
    ensures Agrees(Bounded(bounded, r, limit, window), Unbounded(unbounded, r, window), key, r.now, window)
  {
  }

  /** For every client whose own bucket is never dropped, forgetting expired buckets changes no decision,
      whatever happens to the other clients. */
  lemma {:induction false} RunsAgree(requests: seq<Request>, key: string, limit: int, window: int)
    requires Monotone(requests) && NeverDropped(requests, key, limit, window)
    ensures var now := if requests == [] then 0 else requests[|requests| - 1].now;
            Agrees(BoundedRun(requests, limit, window), UnboundedRun(requests, window), key, now, window)
    ensures requests != [] && requests[|requests| - 1].key == key ==>
              Admits(BoundedRun(requests, limit, window), key, limit) ==
                Admits(UnboundedRun(requests, window), key, limit)
  {
    hide Bounded, Hit, Drops;
    if requests != [] {
      var n := |requests| - 1;
      var before, r := requests[..n], requests[n];
      PrefixesAreFine(requests, key, limit, window);
      RunsAgree(before, key, limit, window);
      assert !Drops(BoundedRun(requests[..n], limit, window), r, key, limit, window);
      var last := if before == [] then 0 else before[|before| - 1].now;
      StepAgrees(BoundedRun(before, limit, window), UnboundedRun(before, window), r, key, last, limit, window);
      LastKeyPresent(BoundedRun(before, limit, window), r, limit, window);
    }
  }

  lemma LastKeyPresent(m: Buckets, r: Request, limit: int, window: int)
    ensures r.key in Bounded(m, r, limit, window)
  {
  }

  lemma PrefixesAreFine(requests: seq<Request>, key: string, limit: int, window: int)
    requires requests != [] && Monotone(requests) && NeverDropped(requests, key, limit, window)
    ensures Monotone(requests[..|requests| - 1]) && NeverDropped(requests[..|requests| - 1], key, limit, window)
  {
    hide Drops, BoundedRun;
    var before := requests[..|requests| - 1];
    forall k | 0 <= k < |before| ensures !Drops(BoundedRun(before[..k], limit, window), before[k], key, limit, window) {
      assert before[..k] == requests[..k] && before[k] == requests[k];
    }
  }

  // ---- At most twice the limit in one window's time

  /** Requests of a client admitted with a time in [from, from + window), by the unbounded limiter. */
  function AdmittedIn(requests: seq<Request>, key: string, from: int, limit: int, window: int): nat {
    if requests == [] then 0
    else
      var n := |requests| - 1;
      AdmittedIn(requests[..n], key, from, limit, window) +
      if requests[n].key == key && from <= requests[n].now < from + window
        && Admits(UnboundedRun(requests, window), key, limit)
      then 1 else 0
  }

  function Least(a: int, b: int): int { if a < b then a else b }

  /** Admissions in the interval so far: at most what the current window admitted, and one more
      window's worth if the current one began inside the interval. */
  ghost predicate AdmissionsBounded(m: Buckets, key: string, now: int, admitted: nat, from: int, limit: int,
      window: int) {
    && (now < from ==> admitted == 0)
    && (key !in m ==> admitted == 0)
    && (key in m ==> m[key].windowStart > 0 && m[key].windowStart <= now)
    && admitted <= 2 * limit
    && (key in m && now < from + window ==>
          admitted <= Least(m[key].count, limit) + if m[key].windowStart >= from then limit else 0)
  }

  lemma AdmissionStep(m: Buckets, r: Request, key: string, before: int, admitted: nat, from: int, limit: int,
      window: int)
    requires limit > 0 && window > 0 && 0 < r.now && before <= r.now
    requires AdmissionsBounded(m, key, before, admitted, from, limit, window)
    ensures var m' := Unbounded(m, r, window);
            var more := if r.key == key && from <= r.now < from + window && Admits(m', key, limit) then 1 else 0;
            AdmissionsBounded(m', key, r.now, admitted + more, from, limit, window)
  {
  }

  lemma {:induction false} AdmissionsStayBounded(requests: seq<Request>, key: string, from: int, limit: int,
      window: int)
    requires limit > 0 && window > 0 && Monotone(requests)
    ensures var now := if requests == [] then 0 else requests[|requests| - 1].now;
            AdmissionsBounded(UnboundedRun(requests, window), key, now,
              AdmittedIn(requests, key, from, limit, window), from, limit, window)
  {
    hide AdmissionsBounded, Unbounded;
    if requests == [] {
      NothingAdmittedYet(key, from, limit, window);
    } else {
      var n := |requests| - 1;
      var before := requests[..n];
      AdmissionsStayBounded(before, key, from, limit, window);
      var last := if before == [] then 0 else before[|before| - 1].now;
      AdmissionStep(UnboundedRun(before, window), requests[n], key, last,
                    AdmittedIn(before, key, from, limit, window), from, limit, window);
    }
  }

  lemma NothingAdmittedYet(key: string, from: int, limit: int, window: int)
    requires limit > 0
    ensures AdmissionsBounded(map[], key, 0, 0, from, limit, window)
  {
  }

  /** Admissions counted on the bounded map itself. */
  function BoundedAdmittedIn(requests: seq<Request>, key: string, from: int, limit: int, window: int): nat {
    if requests == [] then 0
    else
      var n := |requests| - 1;
      BoundedAdmittedIn(requests[..n], key, from, limit, window) +
      if requests[n].key == key && from <= requests[n].now < from + window
        && Admits(BoundedRun(requests, limit, window), key, limit)
      then 1 else 0
  }

  lemma {:induction false} SameAdmissions(requests: seq<Request>, key: string, from: int, limit: int, window: int)
    requires Monotone(requests) && NeverDropped(requests, key, limit, window)
    ensures BoundedAdmittedIn(requests, key, from, limit, window) == AdmittedIn(requests, key, from, limit, window)
  {
    hide Monotone, NeverDropped, BoundedRun, UnboundedRun, Admits;
    if requests != [] {
      PrefixesAreFine(requests, key, limit, window);
      SameAdmissions(requests[..|requests| - 1], key, from, limit, window);
      RunsAgree(requests, key, limit, window);
    }
  }

  /** The bounded limiter admits a client whose own bucket is never dropped at most twice the limit in any
      half-open interval one window long. */
  lemma AtMostTwiceTheLimit(requests: seq<Request>, key: string, from: int, limit: int, window: int)
    requires limit > 0 && window > 0 && Monotone(requests) && NeverDropped(requests, key, limit, window)
    ensures BoundedAdmittedIn(requests, key, from, limit, window) <= 2 * limit
  {
    hide Monotone, NeverDropped, BoundedAdmittedIn, AdmittedIn, UnboundedRun;
    SameAdmissions(requests, key, from, limit, window);
    AdmissionsStayBounded(requests, key, from, limit, window);
  }

  // ---- A client below the limit is admitted

  /** Requests of a client at or after a time. */
  function RequestsSince(requests: seq<Request>, key: string, time: int): nat {
    if requests == [] then 0
    else
      var n := |requests| - 1;
      RequestsSince(requests[..n], key, time) + if requests[n].key == key && time <= requests[n].now then 1 else 0
  }

  lemma {:induction false} LaterIsFewer(requests: seq<Request>, key: string, time: int, later: int)
    requires time <= later
    ensures RequestsSince(requests, key, later) <= RequestsSince(requests, key, time)
  {
    if requests != [] {
      LaterIsFewer(requests[..|requests| - 1], key, time, later);
    }
  }

  /** A bucket counts no more than the requests since its window started. */
  lemma {:induction false} CountsRequests(requests: seq<Request>, key: string, window: int)
    requires Monotone(requests)
    ensures var m := UnboundedRun(requests, window);
            key in m ==>
              && m[key].count <= RequestsSince(requests, key, m[key].windowStart)
              && 0 < m[key].windowStart && requests != [] && m[key].windowStart <= requests[|requests| - 1].now
  {
    if requests != [] {
      CountsRequests(requests[..|requests| - 1], key, window);
    }
  }

  lemma HitCounts(before: seq<Request>, r: Request, window: int)
    requires Monotone(before + [r]) && window > 0
    ensures Hit(UnboundedRun(before, window), r.key, r.now, window).count <=
            1 + RequestsSince(before, r.key, r.now - window + 1)
  {
    hide UnboundedRun, RequestsSince;
    var m := UnboundedRun(before, window);
    assert Monotone(before) by {
      assert forall i :: 0 <= i < |before| ==> (before + [r])[i] == before[i];
    }
    CountsRequests(before, r.key, window);
    if r.key in m && !WindowOver(m[r.key], r.now, window) {
      LaterIsFewer(before, r.key, r.now - window + 1, m[r.key].windowStart);
    }
  }

  /** A request is admitted whenever fewer than `limit` earlier requests of its client, whose bucket is never
      dropped, lie in the window of time that ends with it. */
  lemma BelowTheLimitIsAdmitted(before: seq<Request>, r: Request, limit: int, window: int)
    requires window > 0 && Monotone(before + [r]) && NeverDropped(before + [r], r.key, limit, window)
    requires RequestsSince(before, r.key, r.now - window + 1) < limit
    ensures Admits(BoundedRun(before + [r], limit, window), r.key, limit)
  {
    hide BoundedRun, Hit, RequestsSince, Monotone, NeverDropped;
    var all := before + [r];
    RunsAgree(all, r.key, limit, window);
    HitCounts(before, r, window);
    LastHit(before, r, window);
  }

  lemma LastHit(before: seq<Request>, r: Request, window: int)
    ensures var m := UnboundedRun(before + [r], window);
            r.key in m && m[r.key] == Hit(UnboundedRun(before, window), r.key, r.now, window)
  {
    assert (before + [r])[..|before|] == before;
  }

  // ---- Which bucket is dropped

  /** The scan for the oldest bucket in a given order of visits: the empty key stands for "none yet". */
  function Scan(m: Buckets, order: seq<string>): string
    requires forall i :: 0 <= i < |order| ==> order[i] in m
  {
    if order == [] then ""
    else
      var n := |order| - 1;
      var chosen := Scan(m, order[..n]);
      if chosen == "" || (chosen in m && m[order[n]].windowStart < m[chosen].windowStart) then order[n] else chosen
  }

  /** An order that visits every bucket once. */
  ghost predicate Visits(order: seq<string>, m: Buckets) {
    && (forall i :: 0 <= i < |order| ==> order[i] in m)
    && (forall i, j :: 0 <= i < j < |order| ==> order[i] != order[j])
    && (forall k :: k in m ==> k in order)
  }

  ghost predicate IsOldest(m: Buckets, key: string) {
    key in m && forall k :: k in m ==> m[key].windowStart <= m[k].windowStart
  }

  /** No client has the empty key, or it is alone, or another bucket is at least as old. */
  ghost predicate EmptyKeyIsHarmless(m: Buckets) {
    "" in m ==> m.Keys == {""} || exists k :: k in m && k != "" && m[k].windowStart <= m[""].windowStart
  }

  /** What the scan has found among the keys seen: without the empty key the oldest; after it, only
      buckets younger than that of the empty key may have been missed. */
  ghost predicate Found(m: Buckets, seen: set<string>, chosen: string) {
    && seen <= m.Keys
    && (if seen == {} then chosen == "" else chosen in seen)
    && forall k :: k in seen && k != "" ==>
         || ("" in seen && m[""].windowStart < m[k].windowStart)
         || (chosen != "" && m[chosen].windowStart <= m[k].windowStart)
  }

  lemma FoundNext(m: Buckets, seen: set<string>, chosen: string, k: string)
    requires Found(m, seen, chosen) && k in m && k !in seen
    ensures Found(m, seen + {k}, if chosen == "" || m[k].windowStart < m[chosen].windowStart then k else chosen)
  {
  }

  lemma {:induction false} ScanFinds(m: Buckets, order: seq<string>)
    requires forall i :: 0 <= i < |order| ==> order[i] in m
    requires forall i, j :: 0 <= i < j < |order| ==> order[i] != order[j]
    ensures Found(m, (set k | k in order), Scan(m, order))
  {
    hide Found;
    if order == [] {
      NothingFound(m);
      assert (set k | k in order) == {};
    } else {
      var n := |order| - 1;
      var seen := set k | k in order[..n];
      ScanFinds(m, order[..n]);
      FoundNext(m, seen, Scan(m, order[..n]), order[n]);
      assert order == order[..n] + [order[n]];
      assert (set k | k in order) == seen + {order[n]};
      ChosenIsKey(m, seen, Scan(m, order[..n]));
    }
  }

  lemma NothingFound(m: Buckets)
    ensures Found(m, {}, "")
  {
  }

  lemma ChosenIsKey(m: Buckets, seen: set<string>, chosen: string)
    requires Found(m, seen, chosen)
    ensures chosen == "" || chosen in m
  {
  }

  /** Once past the empty key at the front, the scan never returns to it. */
  lemma {:induction false} FirstIsForgotten(m: Buckets, order: seq<string>)
    requires forall i :: 0 <= i < |order| ==> order[i] in m
    requires |order| >= 2 && forall i :: 1 <= i < |order| ==> order[i] != ""
    requires order[0] == ""
    ensures Scan(m, order) != "" && Scan(m, order) in order
  {
    var n := |order| - 1;
    assert order == order[..n] + [order[n]];
    if n >= 2 {
      FirstIsForgotten(m, order[..n]);
    } else {
      assert order[..1] == [""];
      assert Scan(m, order[..1]) == "";
    }
  }

  lemma {:induction false} Listed(keys: set<string>) returns (order: seq<string>)
    ensures forall k :: k in keys <==> k in order
    ensures forall i, j :: 0 <= i < j < |order| ==> order[i] != order[j]
  {
    order := [];
    var left := keys;
    while left != {}
      invariant left <= keys
      invariant forall k :: k in order <==> k in keys && k !in left
      invariant forall i, j :: 0 <= i < j < |order| ==> order[i] != order[j]
      decreases |left|
    {
      var k :| k in left;
      order := order + [k];
      left := left - {k};
    }
  }

  lemma HarmlessFindsOldest(m: Buckets, order: seq<string>)
    requires m != map[] && Visits(order, m) && EmptyKeyIsHarmless(m)
    ensures IsOldest(m, Scan(m, order))
  {
    hide Scan;
    assert order != [] by {
      var k :| k in m;
      assert k in order;
    }
    ScanFinds(m, order);
    var v := Scan(m, order);
    if "" in m && m.Keys != {""} {
      var k :| k in m && k != "" && m[k].windowStart <= m[""].windowStart;
      assert k in order && "" in order;
    }
  }

  lemma EmptyKeyFirst(m: Buckets) returns (order: seq<string>)
    requires "" in m && !EmptyKeyIsHarmless(m)
    ensures Visits(order, m) && !IsOldest(m, Scan(m, order))
  {
    var rest := Listed(m.Keys - {""});
    order := [""] + rest;
    assert forall i :: 1 <= i < |order| ==> order[i] == rest[i - 1] && order[i] in rest;
    assert rest != [] by {
      var k :| k in m && k != "";
      assert k in rest;
    }
    FirstIsForgotten(m, order);
  }

  /** The oldest bucket is dropped in every order of visits exactly when the empty key is harmless. */
  lemma DropsOldestExactly(m: Buckets)
    requires m != map[]
    ensures (forall order :: Visits(order, m) ==> IsOldest(m, Scan(m, order))) <==> EmptyKeyIsHarmless(m)
  {
    hide Scan, IsOldest;
    if EmptyKeyIsHarmless(m) {
      forall order | Visits(order, m) ensures IsOldest(m, Scan(m, order)) {
        HarmlessFindsOldest(m, order);
      }
    } else {
      var order := EmptyKeyFirst(m);
    }
  }

  /** Visited first, an older bucket under the empty key is passed over. */
  lemma EmptyKeyMisleads()
    ensures var m := map["" := Bucket(1, 1), "a" := Bucket(2, 1)];
            Visits(["", "a"], m) && Scan(m, ["", "a"]) == "a" && !IsOldest(m, "a") && !EmptyKeyIsHarmless(m)
  {
    var m := map["" := Bucket(1, 1), "a" := Bucket(2, 1)];
    assert ["", "a"][..1] == [""] && [""][..0] == [];
    assert Scan(m, [""]) == "";
    assert m[""].windowStart == 1 && m["a"].windowStart == 2;
  }

  // ---- The limiter

  class Limiter {
    const limit: int
    const window: int
    var buckets: Buckets

    constructor (limit: int, window: int)
      ensures this.limit == limit && this.window == window && buckets == map[]
    {
      this.limit, this.window, this.buckets := limit, window, map[];
    }

    method RemoveExpired(now: int)
      modifies this
      ensures buckets == Live(old(buckets), now, window)
    {
      var left := buckets.Keys;
      while left != {}
        invariant left <= old(buckets).Keys
        invariant buckets == map k | k in old(buckets)
                  && (k in left || !WindowOver(old(buckets)[k], now, window)) :: old(buckets)[k]
      {
        var k :| k in left;
        left := left - {k};
        if WindowOver(buckets[k], now, window) {
          buckets := buckets - {k};
        }
      }
    }

    /** Drop the bucket a scan in some order ends on. */
    method RemoveOldest() returns (victim: string, ghost order: seq<string>)
      requires buckets != map[]
      modifies this
      ensures Visits(order, old(buckets)) && victim == Scan(old(buckets), order)
      ensures victim in old(buckets) && buckets == old(buckets) - {victim}
      ensures EmptyKeyIsHarmless(old(buckets)) ==> IsOldest(old(buckets), victim)
    {
      victim, order := "", [];
      var oldest := 0;
      var left := buckets.Keys;
      while left != {}
        invariant left <= buckets.Keys && unchanged(this)
        invariant forall k :: k in order <==> k in buckets && k !in left
        invariant forall i, j :: 0 <= i < j < |order| ==> order[i] != order[j]
        invariant victim == Scan(buckets, order)
        invariant victim != "" ==> victim in buckets && oldest == buckets[victim].windowStart
      {
        var k :| k in left;
        left := left - {k};
        ghost var seen := order;
        order := order + [k];
        assert order[..|seen|] == seen;
        if victim == "" || buckets[k].windowStart < oldest {
          victim, oldest := k, buckets[k].windowStart;
        }
      }
      ScanFinds(buckets, order);
      assert order != [];
      if EmptyKeyIsHarmless(buckets) {
        HarmlessFindsOldest(buckets, order);
      }
      buckets := buckets - {victim};
    }

    /** One request: make room if the map is full, count the hit, and decide. */
    method Allow(key: string, now: int) returns (allowed: bool, victim: string)
      modifies this
      ensures limit <= 0 || window <= 0 ==> allowed && unchanged(this)
      ensures limit > 0 && window > 0 ==>
                var r := Request(key, now, victim);
                && buckets == Bounded(old(buckets), r, limit, window)
                && RealVictim(old(buckets), r, limit, window)
                && allowed == Admits(buckets, key, limit)
    {
      victim := "";
      if limit <= 0 || window <= 0 {
        return true, victim;
      }
      if key !in buckets && |buckets| >= Capacity(limit) {
        RemoveExpired(now);
        if |buckets| >= Capacity(limit) {
          ghost var order;
          victim, order := RemoveOldest();
        }
      }
      var bucket := if key in buckets then buckets[key] else Bucket(0, 0);
      if bucket.windowStart == 0 || now - bucket.windowStart >= window {
        bucket := Bucket(now, 0);
      }
      bucket := bucket.(count := bucket.count + 1);
      buckets := buckets[key := bucket];
      allowed := bucket.count <= limit;
    }
  }
}
