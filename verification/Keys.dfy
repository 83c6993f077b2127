/**
 The order every SQLite query of the two queues uses: `ORDER BY timestamp, event_id`.

 A timestamp and an event id are text in the database; only their order is ever used,
 so both are integers here. Event ids are primary keys, so two rows never share a key.
 */
module Keys {

  datatype Option<+T> = None | Some(value: T)

  datatype Key = Key(ts: int, id: int)

  predicate Less(a: Key, b: Key) {
    a.ts < b.ts || (a.ts == b.ts && a.id < b.id)
  }

  predicate AtMost(a: Key, b: Key) {
    a == b || Less(a, b)
  }

  ghost predicate Ascending(s: seq<Key>) {
    forall i, j :: 0 <= i < j < |s| ==> Less(s[i], s[j])
  }

  lemma LeastExists(s: set<Key>)
    requires s != {}
    ensures exists k :: k in s && forall x | x in s :: AtMost(k, x)
  {
    var k :| k in s;
    if s != {k} {
      LeastExists(s - {k});
      var m :| m in s - {k} && forall x | x in s - {k} :: AtMost(m, x);
      var least := if Less(m, k) then m else k;
      assert forall x | x in s :: x == k || x in s - {k};
      assert least in s && forall x | x in s :: AtMost(least, x);
    }
  }

  function Least(s: set<Key>): (k: Key)
    requires s != {}
    ensures k in s && forall x | x in s :: AtMost(k, x)
  {
    LeastExists(s);
    var k :| k in s && forall x | x in s :: AtMost(k, x);
    k
  }

  lemma GreatestExists(s: set<Key>)
    requires s != {}
    ensures exists k :: k in s && forall x | x in s :: AtMost(x, k)
  {
    var k :| k in s;
    if s != {k} {
      GreatestExists(s - {k});
      var m :| m in s - {k} && forall x | x in s - {k} :: AtMost(x, m);
      var greatest := if Less(k, m) then m else k;
      assert forall x | x in s :: x == k || x in s - {k};
      assert greatest in s && forall x | x in s :: AtMost(x, greatest);
    }
  }

  function Greatest(s: set<Key>): (k: Key)
    requires s != {}
    ensures k in s && forall x | x in s :: AtMost(x, k)
  {
    GreatestExists(s);
    var k :| k in s && forall x | x in s :: AtMost(x, k);
    k
  }

  /** What `ORDER BY timestamp ASC, event_id ASC` returns for a set of rows. */
  function OrderBy(s: set<Key>): (r: seq<Key>)
    ensures Ascending(r)
    ensures forall k :: k in r <==> k in s
    ensures |r| == |s|
  {
    if s == {} then []
    else
      var k := Least(s);
      var rest := OrderBy(s - {k});
      [k] + rest
  }

  lemma HasMember<T>(s: seq<T>)
    ensures s == [] || exists k :: k in s
  {
    if s != [] { assert s[0] in s; }
  }

  /** Two ascending listings of the same rows are the same listing. */
  lemma {:induction false} AscendingUnique(a: seq<Key>, b: seq<Key>)
    requires Ascending(a) && Ascending(b)
    requires forall k :: k in a <==> k in b
    ensures a == b
  {
    if a == [] {
      HasMember(b);
    } else {
      assert a[0] in b;
      assert b[0] in a;
      assert a[0] == b[0];
      forall k ensures k in a[1..] <==> k in b[1..] {
        if k in a[1..] {
          var i :| 0 <= i < |a[1..]| && a[1..][i] == k;
          assert a[i + 1] == k && Less(a[0], k);
          assert k in b;
          var j :| 0 <= j < |b| && b[j] == k;
          assert b[1..][j - 1] == k;
        }
        if k in b[1..] {
          var i :| 0 <= i < |b[1..]| && b[1..][i] == k;
          assert b[i + 1] == k && Less(b[0], k);
          assert k in a;
          var j :| 0 <= j < |a| && a[j] == k;
          assert a[1..][j - 1] == k;
        }
      }
      AscendingUnique(a[1..], b[1..]);
      assert a == [a[0]] + a[1..] && b == [b[0]] + b[1..];
    }
  }

  /** Keeping only the keys above the n-th one drops the first n + 1 of the listing. */
  lemma AfterCursor(s: set<Key>, n: nat)
    requires n < |OrderBy(s)|
    ensures OrderBy(set k | k in s && Less(OrderBy(s)[n], k)) == OrderBy(s)[n + 1..]
  {
    var above := set k | k in s && Less(OrderBy(s)[n], k);
    SuffixIsAbove(s, OrderBy(s), n);
    AscendingUnique(OrderBy(above), OrderBy(s)[n + 1..]);
  }

  lemma SuffixIsAbove(s: set<Key>, all: seq<Key>, n: nat)
    requires Ascending(all) && n < |all|
    requires forall k :: k in all <==> k in s
    ensures Ascending(all[n + 1..])
    ensures forall k :: k in all[n + 1..] <==> k in s && Less(all[n], k)
  {
    forall k | k in s && Less(all[n], k) ensures k in all[n + 1..] {
      var i :| 0 <= i < |all| && all[i] == k;
      assert all[n + 1..][i - n - 1] == k;
    }
  }

  /** `ORDER BY timestamp DESC, event_id DESC`: the same rows, backwards. */
  function OrderByDesc(s: set<Key>): (r: seq<Key>)
    ensures forall k :: k in r <==> k in s
    ensures |r| == |s|
  {
    if s == {} then []
    else
      var k := Greatest(s);
      [k] + OrderByDesc(s - {k})
  }

  function Reverse<T>(s: seq<T>): (r: seq<T>)
    ensures |r| == |s| && forall i :: 0 <= i < |s| ==> r[i] == s[|s| - 1 - i]
  {
    if s == [] then [] else Reverse(s[1..]) + [s[0]]
  }

  lemma {:induction false} DescIsReversedAsc(s: set<Key>)
    ensures OrderByDesc(s) == Reverse(OrderBy(s))
    decreases |s|
  {
    if s != {} {
      var k := Greatest(s);
      var front := OrderBy(s - {k});
      DescIsReversedAsc(s - {k});
      GreatestComesLast(s, k, front);
      AscendingUnique(OrderBy(s), front + [k]);
      ReverseSnoc(front, k);
    }
  }

  lemma GreatestComesLast(s: set<Key>, k: Key, front: seq<Key>)
    requires k in s && forall x | x in s :: AtMost(x, k)
    requires Ascending(front) && forall x :: x in front <==> x in s - {k}
    ensures Ascending(front + [k]) && forall x :: x in front + [k] <==> x in s
  {
    forall i | 0 <= i < |front| ensures Less(front[i], k) {
      assert front[i] in front;
    }
  }

  lemma ReverseSnoc<T>(front: seq<T>, k: T)
    ensures Reverse(front + [k]) == [k] + Reverse(front)
  {
    assert forall i :: 0 <= i <= |front| ==> Reverse(front + [k])[i] == ([k] + Reverse(front))[i];
  }

  /** The first `limit` rows, as `LIMIT` cuts them. */
  function Limit<T>(s: seq<T>, limit: nat): (r: seq<T>)
    ensures |r| == (if limit < |s| then limit else |s|) && r <= s
  {
    if limit < |s| then s[..limit] else s
  }

  function Last<T>(s: seq<T>, limit: nat): (r: seq<T>)
    ensures |r| == (if limit < |s| then limit else |s|) && r == s[|s| - |r|..]
  {
    if limit < |s| then s[|s| - limit..] else s
  }

  lemma ReverseLimit<T>(s: seq<T>, limit: nat)
    ensures Reverse(Limit(Reverse(s), limit)) == Last(s, limit)
  {
  }
}
