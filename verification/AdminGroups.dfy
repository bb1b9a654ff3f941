/** Which groups a user administers: a scan over all groups, one question to Telegram each, cached for
    a while.  Each answer is only as fresh as the question was. */
module AdminGroups {

  import opened Basics

  const TTL := 300.0

  datatype Reply<+T> = NoRows | Broken | Found(value: T)

  /** What Telegram said about one group's administrators, and when. */
  datatype Sample = Unreachable | Admins(ids: set<int>, at: real)

  datatype Entry = Entry(groups: seq<int>, at: real)

  datatype Answer = Groups(groups: seq<int>) | Failed

  /** The evidence behind a cached answer: the Telegram account asked for, the groups known at the
      time, and when each was asked about. */
  datatype Scan = Scan(account: int, known: seq<int>, askedAt: seq<real>)

  /** Whether an account administers a group at a given time. */
  type Truth = (int, int, real) -> bool

  // ---------------------------------------------------------------- one scan

  ghost function Listed(known: seq<int>, samples: nat -> Sample, account: int, n: nat): seq<int>
    requires n <= |known|
  {
    if n == 0 then []
    else
      var sample := samples(n - 1);
      Listed(known, samples, account, n - 1) + (if sample.Admins? && account in sample.ids then [known[n - 1]] else [])
  }

  ghost predicate Complete(known: seq<int>, samples: nat -> Sample) {
    forall i: nat :: i < |known| ==> samples(i).Admins?
  }

  /** Telegram answers truthfully for the moment it is asked, between the given times. */
  ghost predicate Truthful(truth: Truth, known: seq<int>, samples: nat -> Sample, from: real, to: real) {
    forall i: nat :: i < |known| && samples(i).Admins? ==>
      && from <= samples(i).at <= to
      && forall account :: account in samples(i).ids <==> truth(known[i], account, samples(i).at)
  }

  /** The answer lists exactly the groups that the account administered when they were asked about. */
  ghost predicate Accurate(truth: Truth, groups: seq<int>, scan: Scan) {
    && |scan.askedAt| == |scan.known|
    && (forall i :: 0 <= i < |scan.known| && truth(scan.known[i], scan.account, scan.askedAt[i]) ==>
          scan.known[i] in groups)
    && (forall g :: g in groups ==> exists i :: 0 <= i < |scan.known| && scan.known[i] == g && truth(g, scan.account,
          scan.askedAt[i]))
  }

  ghost function AskedAt(known: seq<int>, samples: nat -> Sample): (times: seq<real>)
    requires Complete(known, samples)
    ensures |times| == |known| && forall i :: 0 <= i < |known| ==> times[i] == samples(i).at
  {
    seq(|known|, i requires 0 <= i < |known| => samples(i).at)
  }

  lemma {:induction false} ListedIff(known: seq<int>, samples: nat -> Sample, account: int, n: nat, g: int)
    requires n <= |known|
    ensures g in Listed(known, samples, account, n)
            <==> exists i: nat :: i < n && known[i] == g && samples(i).Admins? && account in samples(i).ids
  {
    if n > 0 {
      ListedIff(known, samples, account, n - 1, g);
    }
  }

  /** A group known once is listed at most once. */
  lemma {:induction false} ListedOnce(known: seq<int>, samples: nat -> Sample, account: int, n: nat)
    requires n <= |known| && Distinct(known)
    ensures Distinct(Listed(known, samples, account, n))
  {
    if n > 0 {
      ListedOnce(known, samples, account, n - 1);
      ListedIff(known, samples, account, n - 1, known[n - 1]);
    }
  }

  lemma ScanIsAccurate(truth: Truth, known: seq<int>, samples: nat -> Sample, account: int, from: real, to: real)
    requires Complete(known, samples) && Truthful(truth, known, samples, from, to)
    ensures Accurate(truth, Listed(known, samples, account, |known|), Scan(account, known, AskedAt(known, samples)))
  {
    var groups, times := Listed(known, samples, account, |known|), AskedAt(known, samples);
    forall i: nat | i < |known| && truth(known[i], account, times[i]) ensures known[i] in groups {
      assert account in samples(i).ids;
      ListedIff(known, samples, account, |known|, known[i]);
    }
    forall g | g in groups ensures exists i :: 0 <= i < |known| && known[i] == g && truth(g, account, times[i]) {
      ListedIff(known, samples, account, |known|, g);
      var i: nat :| i < |known| && known[i] == g && samples(i).Admins? && account in samples(i).ids;
      assert truth(g, account, times[i]);
    }
  }

  // ---------------------------------------------------------------- the resolver

  class AdminGroupsResolver {
    var cache: map<int, Entry>
    ghost var scans: map<int, Scan>
    ghost const truth: Truth

    constructor (ghost truth: Truth)
      ensures Valid() && cache == map[] && this.truth == truth
    {
      cache, scans := map[], map[];
      this.truth := truth;
    }

    /** Every cached answer was complete, and accurate for the moments its groups were asked about,
        none of them after the answer was stored. */
    ghost predicate Valid()
      reads this
    {
      && scans.Keys == cache.Keys
      && forall user :: user in cache ==>
           && Accurate(truth, cache[user].groups, scans[user])
           && forall t :: t in scans[user].askedAt ==> t <= cache[user].at
    }

    /** Asks about every group; an unreachable one is passed over and makes the answer partial. */
    static method ScanGroups(known: seq<int>, samples: nat -> Sample, account: int)
      returns (adminGroups: seq<int>, partial: bool)
      ensures adminGroups == Listed(known, samples, account, |known|)
      ensures partial <==> !Complete(known, samples)
    {
      adminGroups, partial := [], false;
      for i := 0 to |known|
        invariant adminGroups == Listed(known, samples, account, i)
        invariant partial <==> exists k: nat :: k < i && samples(k).Unreachable?
      {
        var sample := samples(i);
        if sample.Unreachable? {
          partial := true;
          continue;
        }
        if account in sample.ids {
          adminGroups := adminGroups + [known[i]];
        }
      }
    }

    /** A cached answer is there and not too old. */
    predicate Hit(user: int, now: real)
      reads this
    {
      user in cache && now - cache[user].at < TTL
    }

    /** The groups served are those the account administered when each was asked about; a group's age
        is less than the time to live plus what the scan still took after asking about it. */
    ghost predicate Backed(user: int, now: real, groups: seq<int>)
      reads this
    {
      && user in cache && user in scans && Accurate(truth, groups, scans[user])
      && forall t :: t in scans[user].askedAt ==> t <= cache[user].at && now - t < TTL + (cache[user].at - t)
    }

    /** A fresh cached answer is served as it is.  Otherwise the groups are scanned, and the answer is
        kept only if every group could be asked about. */
    method AdminGroupsFor(user: int, now: real, account: Reply<int>, known: Reply<seq<int>>, samples: nat -> Sample,
        finishedAt: real)
      returns (answer: Answer)
      requires Valid()
      requires known.Found? ==> Truthful(truth, known.value, samples, now, finishedAt)
      modifies this
      ensures Valid()
      ensures old(Hit(user, now)) ==> answer.Groups? && Backed(user, now, answer.groups)
      ensures var hit := old(Hit(user, now));
              var scanned := !hit && account.Found? && known.Found?;
              && (hit ==> answer == Groups(old(cache)[user].groups))
              && (!hit && account.NoRows? ==> answer == Groups([]))
              && (!hit && (account.Broken? || (account.Found? && !known.Found?)) ==> answer == Failed)
              && (scanned ==> answer == Groups(Listed(known.value, samples, account.value, |known.value|)))
              && (scanned && Complete(known.value, samples) ==>
                    && cache == old(cache)[user := Entry(answer.groups, finishedAt)]
                    && scans == old(scans)[user := Scan(account.value, known.value, AskedAt(known.value, samples))])
              && (!scanned || !Complete(known.value, samples) ==> cache == old(cache) && scans == old(scans))
    {
      if Hit(user, now) {
        return Groups(cache[user].groups);
      }
      if account.NoRows? {
        return Groups([]);
      }
      if account.Broken? || !known.Found? {
        return Failed;
      }
      var adminGroups, partial := ScanGroups(known.value, samples, account.value);
      if !partial {
        ScanIsAccurate(truth, known.value, samples, account.value, now, finishedAt);
        cache := cache[user := Entry(adminGroups, finishedAt)];
        scans := scans[user := Scan(account.value, known.value, AskedAt(known.value, samples))];
      }
      answer := Groups(adminGroups);
    }
  }

  // ---------------------------------------------------------------- how stale an answer can be

  /** A partial answer may miss groups but names none that the account did not administer. */
  lemma PartialAnswerIsSound(truth: Truth, known: seq<int>, samples: nat -> Sample, account: int, from: real,
      to: real, g: int)
    requires Truthful(truth, known, samples, from, to) && g in Listed(known, samples, account, |known|)
    ensures exists i: nat :: i < |known| && known[i] == g && samples(i).Admins? && truth(g, account,
          samples(i).at) && from <= samples(i).at <= to
  {
    ListedIff(known, samples, account, |known|, g);
    var i: nat :| i < |known| && known[i] == g && samples(i).Admins? && account in samples(i).ids;
    assert truth(g, account, samples(i).at);
  }

  /** Every answer served from the cache at `now` is at most the time to live old for each group. */
  ghost predicate WithinTTL(scan: Scan, now: real) {
    forall t :: t in scan.askedAt ==> now - t <= TTL
  }

  /** The time to live bounds the age of what is served, at every time a cached answer can be served,
      exactly when every group was asked about at the moment the answer was stored. */
  lemma StalenessBoundIff(resolver: AdminGroupsResolver, user: int)
    requires resolver.Valid() && user in resolver.cache
    ensures (forall now: real :: resolver.cache[user].at <= now && resolver.Hit(user, now) ==>
        WithinTTL(resolver.scans[user], now))
            <==> (forall t :: t in resolver.scans[user].askedAt ==> t == resolver.cache[user].at)
  {
    var at, scan := resolver.cache[user].at, resolver.scans[user];
    forall t | t in scan.askedAt && t < at
      ensures exists now: real :: at <= now && resolver.Hit(user, now) && !WithinTTL(scan, now)
    {
      var gap := at - t;
      var now := if gap / 2.0 <= TTL then at + TTL - gap / 2.0 else at;
      assert resolver.Hit(user, now) && !WithinTTL(scan, now);
    }
  }

  /** Account 1 administers group 20 for good and group 10 until time 1. */
  ghost function DemotedAtOne(): Truth {
    (group, account, t) => account == 1 && (group == 20 || t < 1.0)
  }

  lemma BothAnswer(samples: nat -> Sample)
    requires samples(0) == Admins({1}, 0.0) && samples(1) == Admins({1}, 2.0)
    ensures Listed([10, 20], samples, 1, 2) == [10, 20] && Complete([10, 20], samples)
    ensures AskedAt([10, 20], samples) == [0.0, 2.0]
    ensures Truthful(DemotedAtOne(), [10, 20], samples, 0.0, 2.0)
  {
    assert Listed([10, 20], samples, 1, 0) == [] && Listed([10, 20], samples, 1, 1) == [10];
  }

  /** A first call asks about group 10 at time 0 and about group 20 at time 2; the account loses group 10
      at time 1; a second call at time 301 is still served group 10, which it lost 300 seconds before
      and which was asked about 301 seconds before. */
  method ServesGroupLostLongAgo() returns (resolver: AdminGroupsResolver, first: Answer, second: Answer)
    ensures resolver.Valid() && first == second == Groups([10, 20])
    ensures 7 in resolver.scans && |resolver.scans[7].askedAt| == 2 && 301.0 - resolver.scans[7].askedAt[0] > TTL
    ensures forall t :: 1.0 <= t <= 301.0 ==> !resolver.truth(10, 1, t)
  {
    resolver := new AdminGroupsResolver(DemotedAtOne());
    var samples := (i: nat) => Admins({1}, if i == 0 then 0.0 else 2.0);
    BothAnswer(samples);
    first := resolver.AdminGroupsFor(7, 0.0, Found(1), Found([10, 20]), samples, 2.0);
    second := resolver.AdminGroupsFor(7, 301.0, Found(1), Broken, samples, 301.0);
  }
}
