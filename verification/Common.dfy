/** Identifiers and other vocabulary shared by every bounded context. */
module Common {
  /** A ULID. Only equality and the ordering of ids are ever observed, so a natural number stands for it. */
  type Id = nat

  datatype Option<+T> = None | Some(value: T)

  datatype Result<+T, +E> = Ok(value: T) | Err(error: E)

  predicate NoDuplicates<T(==)>(s: seq<T>) {
    forall i, j :: 0 <= i < j < |s| ==> s[i] != s[j]
  }

  function Elements<T>(s: seq<T>): set<T> {
    set x | x in s
  }

  /** `[...new Set(ids)]`: first occurrences, in order. */
  function Distinct(ids: seq<Id>): (d: seq<Id>)
    ensures NoDuplicates(d)
    ensures forall x :: x in d <==> x in ids
  {
    if ids == [] then []
    else
      var front := Distinct(ids[..|ids| - 1]);
      if ids[|ids| - 1] in front then front else front + [ids[|ids| - 1]]
  }

  lemma FirstIsMember<T>(s: seq<T>)
    requires s != []
    ensures s[0] in s
  {
  }

  lemma ConcatAssociative<T>(a: seq<T>, b: seq<T>, c: seq<T>)
    ensures a + b + c == a + (b + c)
  {
  }

  lemma AppendLast<T>(a: seq<T>, s: seq<T>)
    requires s != []
    ensures a + s[..|s| - 1] + [s[|s| - 1]] == a + s
  {
  }

  lemma FullSubset<T>(small: set<T>, big: set<T>)
    requires small <= big && |small| >= |big|
    ensures small == big
  {
    assert |big - small| == |big| - |small|;
    assert big - small == {};
  }

  lemma {:induction false} DistinctCount<T>(s: seq<T>)
    requires NoDuplicates(s)
    ensures |Elements(s)| == |s|
  {
    if s != [] {
      var front, last := s[..|s| - 1], s[|s| - 1];
      DistinctCount(front);
      assert last !in front;
      assert Elements(s) == Elements(front) + {last};
    }
  }

  /** Pigeonhole: a sequence longer than the set it draws from repeats an element. */
  lemma {:induction false} Pigeonhole<T>(s: seq<T>, pool: set<T>) returns (i: nat, j: nat)
    requires forall x :: x in s ==> x in pool
    requires |s| > |pool|
    ensures i < j < |s| && s[i] == s[j]
    decreases |s|
  {
    var last := |s| - 1;
    if s[last] in s[..last] {
      i :| 0 <= i < last && s[i] == s[last];
      j := last;
    } else {
      assert s[last] in pool && |pool - {s[last]}| == |pool| - 1;
      forall x | x in s[..last] ensures x in pool - {s[last]} {
        assert x in s;
      }
      i, j := Pigeonhole(s[..last], pool - {s[last]});
    }
  }

  // ---------- ids in order ----------

  lemma {:induction false} LeastOf(s: set<Id>) returns (m: Id)
    requires s != {}
    ensures m in s && forall x :: x in s ==> m <= x
    decreases |s|
  {
    var a :| a in s;
    m := a;
    if s != {a} {
      var b := LeastOf(s - {a});
      m := if a < b then a else b;
      forall x | x in s ensures m <= x {
        assert x == a || x in s - {a};
      }
    }
  }

  lemma LeastExists(s: set<Id>)
    requires s != {}
    ensures exists m :: m in s && forall x :: x in s ==> m <= x
  {
    var m := LeastOf(s);
  }

  function Least(s: set<Id>): (m: Id)
    requires s != {}
    ensures m in s && forall x :: x in s ==> m <= x
  {
    LeastExists(s);
    var m :| m in s && forall x :: x in s ==> m <= x;
    m
  }

  /** `ORDER BY id`. */
  function Ascending(s: set<Id>): (r: seq<Id>)
    ensures |r| == |s|
    ensures forall x :: x in r <==> x in s
    ensures forall i, j :: 0 <= i < j < |r| ==> r[i] < r[j]
  {
    if s == {} then []
    else
      var m := Least(s);
      [m] + Ascending(s - {m})
  }

  /** A prefix of the order skips nothing below what it holds. */
  lemma PrefixHasTheLeast(s: set<Id>, n: nat, i: nat, x: Id)
    requires i < n <= |s| && x in s && x < Ascending(s)[i]
    ensures x in Ascending(s)[..n]
  {
    hide Ascending;
    var all := Ascending(s);
    var k :| 0 <= k < |all| && all[k] == x;
    assert k < i && all[..n][k] == x;
  }
}
