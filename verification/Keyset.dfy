/** The order SQL lists rows in, `ORDER BY time DESC, id DESC` over stored text, and what
    a keyset cursor cuts off of it. */
module Keyset {
  /** Byte-wise comparison of two stored texts. */
  predicate TextLess(a: string, b: string) {
    b != "" && (a == "" || a[0] < b[0] || (a[0] == b[0] && TextLess(a[1..], b[1..])))
  }

  lemma {:induction false} TextLessTotal(a: string, b: string)
    ensures TextLess(a, b) || a == b || TextLess(b, a)
    ensures !(TextLess(a, b) && TextLess(b, a)) && !TextLess(a, a)
  {
    if a != "" {
      TextLessTotal(a[1..], a[1..]);
      if b != "" && a[0] == b[0] {
        TextLessTotal(a[1..], b[1..]);
        assert a == [a[0]] + a[1..] && b == [b[0]] + b[1..];
      }
    }
  }

  /** The first k characters agree, and then a ends before b or has the smaller character. */
  ghost predicate FirstDifference(a: string, b: string, k: nat) {
    k <= |a| && k < |b| && a[..k] == b[..k] && (k < |a| ==> a[k] < b[k])
  }

  /** What byte order means. */
  lemma {:induction false} TextLessIff(a: string, b: string)
    ensures TextLess(a, b) <==> exists k: nat :: FirstDifference(a, b, k)
  {
    if b == "" {
    } else if a == "" || a[0] < b[0] {
      assert FirstDifference(a, b, 0);
    } else if a[0] > b[0] {
      assert forall k: nat | 0 < k <= |a| && k < |b| :: a[..k][0] != b[..k][0];
    } else {
      TextLessIff(a[1..], b[1..]);
      if k: nat :| FirstDifference(a[1..], b[1..], k) {
        assert a[..k + 1] == [a[0]] + a[1..][..k] && b[..k + 1] == [b[0]] + b[1..][..k];
        assert FirstDifference(a, b, k + 1);
      }
      if k: nat :| FirstDifference(a, b, k) {
        assert k > 0;
        assert a[1..][..k - 1] == a[..k][1..] && b[1..][..k - 1] == b[..k][1..];
        assert FirstDifference(a[1..], b[1..], k - 1);
      }
    }
  }

  lemma {:induction false} TextLessTransitive(a: string, b: string, c: string)
    requires TextLess(a, b) && TextLess(b, c)
    ensures TextLess(a, c)
  {
    if a != "" && a[0] == b[0] == c[0] {
      TextLessTransitive(a[1..], b[1..], c[1..]);
    }
  }

  /** The columns a row is sorted by. */
  datatype Key = Key(time: string, id: string)

  /** x is listed before y; also `time < ? OR (time = ? AND id < ?)` with cursor x. */
  predicate Before(x: Key, y: Key) {
    TextLess(y.time, x.time) || (y.time == x.time && TextLess(y.id, x.id))
  }

  lemma BeforeTotal(x: Key, y: Key)
    ensures Before(x, y) || x == y || Before(y, x)
    ensures !(Before(x, y) && Before(y, x)) && !Before(x, x)
  {
    TextLessTotal(x.time, y.time);
    TextLessTotal(x.id, y.id);
    TextLessTotal(x.time, x.time);
    TextLessTotal(x.id, x.id);
  }

  lemma BeforeTransitive(x: Key, y: Key, z: Key)
    requires Before(x, y) && Before(y, z)
    ensures Before(x, z)
  {
    if TextLess(y.time, x.time) && TextLess(z.time, y.time) {
      TextLessTransitive(z.time, y.time, x.time);
    } else if y.time == x.time && z.time == y.time {
      TextLessTransitive(z.id, y.id, x.id);
    }
  }

  ghost predicate Descending(s: seq<Key>) {
    forall i, j | 0 <= i < j < |s| :: Before(s[i], s[j])
  }

  /** `s` is the full sorted listing of `keys`. */
  ghost predicate Lists(s: seq<Key>, keys: set<Key>) {
    Descending(s) && forall k :: k in s <==> k in keys
  }

  lemma {:induction false} FirstExists(keys: set<Key>)
    requires keys != {}
    ensures exists m | m in keys :: forall k | k in keys && k != m :: Before(m, k)
  {
    var x :| x in keys;
    if keys == {x} {
      assert forall k | k in keys && k != x :: Before(x, k);
    } else {
      FirstExists(keys - {x});
      var m :| m in keys - {x} && forall k | k in keys - {x} && k != m :: Before(m, k);
      BeforeTotal(x, m);
      if Before(x, m) {
        forall k | k in keys && k != x ensures Before(x, k) {
          if k != m {
            BeforeTransitive(x, m, k);
          }
        }
      } else {
        assert forall k | k in keys && k != m :: Before(m, k);
      }
    }
  }

  /** A set has one listing only. */
  lemma {:induction false} ListingIsUnique(s: seq<Key>, t: seq<Key>, keys: set<Key>)
    requires Lists(s, keys) && Lists(t, keys)
    ensures s == t && |s| == |keys|
  {
    assert s != [] ==> s[0] in keys;
    assert t != [] ==> t[0] in keys;
    if keys != {} {
      var k :| k in keys;
      assert k in s && k in t;
      assert s[0] in s && t[0] in t;
      BeforeTotal(s[0], t[0]);
      Rest(s, keys);
      Rest(t, keys);
      ListingIsUnique(s[1..], t[1..], keys - {s[0]});
    }
  }

  lemma Rest(s: seq<Key>, keys: set<Key>)
    requires Lists(s, keys) && s != []
    ensures Lists(s[1..], keys - {s[0]})
    ensures forall k | k in keys && k != s[0] :: Before(s[0], k)
  {
    forall i | 1 <= i < |s| ensures s[i] != s[0] {
      BeforeTotal(s[0], s[0]);
    }
    forall k | k in keys && k != s[0] ensures Before(s[0], k) && k in s[1..] {
      var i :| 0 <= i < |s| && s[i] == k;
      assert s[1..][i - 1] == k;
    }
  }

  /** How many keys are listed before k. */
  function Rank(keys: set<Key>, k: Key): nat {
    |set x | x in keys && Before(x, k)|
  }

  /** The listing places every key at its rank. */
  lemma IndexIsRank(s: seq<Key>, keys: set<Key>, i: nat)
    requires Lists(s, keys) && i < |s|
    ensures Rank(keys, s[i]) == i
  {
    forall x ensures x in s[..i] <==> x in keys && Before(x, s[i]) {
      if x in keys && Before(x, s[i]) {
        var j :| 0 <= j < |s| && s[j] == x;
        BeforeTotal(s[j], s[i]);
        assert s[..i][j] == x;
      }
    }
    ListingIsUnique(s[..i], s[..i], set x | x in keys && Before(x, s[i]));
  }

  /** `SELECT ... ORDER BY time DESC, id DESC LIMIT limit`: the first rows of the listing. */
  method Query(keys: set<Key>, limit: nat) returns (s: seq<Key>)
    ensures Descending(s) && |s| <= limit
    ensures forall k | k in s :: k in keys
    ensures forall k | k in keys && k !in s :: |s| == limit && forall x | x in s :: Before(x, k)
  {
    s := [];
    var rest := keys;
    while |s| < limit && rest != {}
      invariant |s| <= limit && Descending(s)
      invariant forall k :: k in keys <==> k in s || k in rest
      invariant forall x, k | x in s && k in rest :: Before(x, k)
      decreases rest
    {
      FirstExists(rest);
      var m :| m in rest && forall k | k in rest && k != m :: Before(m, k);
      s := s + [m];
      rest := rest - {m};
    }
  }
}
