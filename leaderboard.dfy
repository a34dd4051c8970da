/**
 * The `topinvites` leaderboard: a guild's ledger sorted by count, highest first,
 * cut to the first ten. Python's `sorted(..., reverse=True)` is stable, so inviters
 * with equal counts keep the order in which they entered the ledger.
 */
module Leaderboard {
  import opened Common
  import opened Ledger

  const TopSize := 10

  /** Counts never increase along the sequence. */
  predicate NonIncreasing(s: Ledger) {
    forall i, j :: 0 <= i < j < |s| ==> s[i].count >= s[j].count
  }

  /** The entries of `s` whose count is `c`, in their order in `s`. */
  function WithCount(s: Ledger, c: int): Ledger {
    if s == [] then []
    else (if s[0].count == c then [s[0]] else []) + WithCount(s[1..], c)
  }

  /**
   * Puts `e` in front of the first entry whose count does not exceed its own, so that
   * `e` comes before every entry it ties with.
   */
  function Insert(e: Entry, s: Ledger): (r: Ledger)
    ensures multiset(r) == multiset(s) + multiset{e}
  {
    if s == [] || s[0].count <= e.count then [e] + s
    else
      assert s == [s[0]] + s[1..];
      [s[0]] + Insert(e, s[1..])
  }

  /** Every count in `s` is at most `b`. */
  predicate CountsAtMost(s: Ledger, b: int) {
    forall x :: x in s ==> x.count <= b
  }

  /** An entry counting at least everything after it keeps the order. */
  lemma ConsKeepsOrder(x: Entry, t: Ledger)
    requires NonIncreasing(t) && CountsAtMost(t, x.count)
    ensures NonIncreasing([x] + t)
  {
    var r := [x] + t;
    forall i, j | 0 <= i < j < |r|
      ensures r[i].count >= r[j].count
    {
      assert r[j] == t[j - 1];
      if i > 0 {
        assert r[i] == t[i - 1];
      }
    }
  }

  /** Inserting an entry under a bound keeps every count under it. */
  lemma {:induction false} InsertBounded(e: Entry, s: Ledger, b: int)
    requires CountsAtMost(s, b) && e.count <= b
    ensures CountsAtMost(Insert(e, s), b)
  {
    if s != [] && s[0].count > e.count {
      assert CountsAtMost(s[1..], b) by {
        forall x | x in s[1..] ensures x in s { }
      }
      InsertBounded(e, s[1..], b);
    }
  }

  /** Inserting into a non-increasing sequence keeps it non-increasing. */
  lemma {:induction false} InsertKeepsOrder(e: Entry, s: Ledger)
    requires NonIncreasing(s)
    ensures NonIncreasing(Insert(e, s))
  {
    if s == [] || s[0].count <= e.count {
      assert CountsAtMost(s, e.count) by {
        forall x | x in s ensures x.count <= e.count {
          var k :| 0 <= k < |s| && s[k] == x;
          assert s[0].count >= s[k].count;
        }
      }
      ConsKeepsOrder(e, s);
    } else {
      var t := s[1..];
      assert NonIncreasing(t) by {
        forall i, j | 0 <= i < j < |t| ensures t[i].count >= t[j].count {
          assert t[i] == s[i + 1] && t[j] == s[j + 1];
        }
      }
      assert CountsAtMost(t, s[0].count) by {
        forall x | x in t ensures x.count <= s[0].count {
          var k :| 0 <= k < |t| && t[k] == x;
          assert x == s[k + 1];
        }
      }
      InsertKeepsOrder(e, t);
      InsertBounded(e, t, s[0].count);
      ConsKeepsOrder(s[0], Insert(e, t));
    }
  }

  /** `sorted(ledger.items(), key=count, reverse=True)`: a permutation with non-increasing counts. */
  function SortDescending(l: Ledger): (s: Ledger)
    ensures multiset(s) == multiset(l)
    ensures NonIncreasing(s)
  {
    if l == [] then []
    else
      assert l == [l[0]] + l[1..];
      InsertKeepsOrder(l[0], SortDescending(l[1..]));
      Insert(l[0], SortDescending(l[1..]))
  }

  /** Inserting `e` adds it in front of the entries it ties with and moves nothing else of that count. */
  lemma {:induction false} InsertWithCount(e: Entry, s: Ledger, c: int)
    ensures WithCount(Insert(e, s), c) == (if e.count == c then [e] else []) + WithCount(s, c)
  {
    if s == [] || s[0].count <= e.count {
      assert ([e] + s)[1..] == s;
    } else {
      InsertWithCount(e, s[1..], c);
      assert ([s[0]] + Insert(e, s[1..]))[1..] == Insert(e, s[1..]);
      assert s[0].count != c || e.count != c;
    }
  }

  /** The sort is stable: the entries of any one count appear in their ledger order. */
  lemma {:induction false} SortIsStable(l: Ledger, c: int)
    ensures WithCount(SortDescending(l), c) == WithCount(l, c)
  {
    if l != [] {
      SortIsStable(l[1..], c);
      InsertWithCount(l[0], SortDescending(l[1..]), c);
    }
  }

  /** The first `n` entries of `s`, or all of them when there are fewer: `s[:n]`. */
  function Take(s: Ledger, n: nat): (r: Ledger)
    ensures |r| == if |s| < n then |s| else n
    ensures r == s[..|r|]
  {
    if |s| <= n then s else s[..n]
  }

  /**
   * `topinvites`: None ("No invite data available") when the guild has no ledger or
   * an empty one, otherwise the ten highest counts.
   */
  function TopInvites(db: InvitesDb, g: GuildId): Option<Ledger> {
    if g !in db || db[g] == [] then None
    else Some(Take(SortDescending(db[g]), TopSize))
  }

  /** What is cut off a non-increasing sequence counts no more than anything kept. */
  lemma TakeKeepsHighest(s: Ledger, n: nat)
    requires NonIncreasing(s)
    ensures forall e, x :: e in s && e !in Take(s, n) && x in Take(s, n) ==> e.count <= x.count
  {
    var r := Take(s, n);
    var rest := s[|r|..];
    assert s == r + rest;
    forall e, x | e in s && e !in r && x in r
      ensures e.count <= x.count
    {
      assert e in rest;
      var k :| 0 <= k < |rest| && rest[k] == e;
      var i :| 0 <= i < |r| && r[i] == x;
      assert s[i] == x && s[|r| + k] == e;
    }
  }

  /**
   * The leaderboard is refused exactly when there is no data. Otherwise it shows
   * min(10, n) of the guild's entries, highest first, and no entry left off it has a
   * higher count than any entry shown.
   */
  lemma TopInvitesRanks(db: InvitesDb, g: GuildId)
    ensures TopInvites(db, g).None? <==> (g !in db || db[g] == [])
    ensures TopInvites(db, g).Some? ==>
      var l, r := db[g], TopInvites(db, g).value;
      && |r| == (if |l| < TopSize then |l| else TopSize)
      && NonIncreasing(r)
      && multiset(r) <= multiset(l)
      && forall e, x :: e in l && e !in r && x in r ==> e.count <= x.count
  {
    if g in db && db[g] != [] {
      var l := db[g];
      var s := SortDescending(l);
      var r := Take(s, TopSize);
      assert s == r + s[|r|..];
      assert multiset(r) <= multiset(s);
      TakeKeepsHighest(s, TopSize);
      forall e | e in l
        ensures e in s
      {
        assert e in multiset(l);
      }
    }
  }
}
