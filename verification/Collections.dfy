/** Facts about sequences, sets and maps, stated apart so that they are proved once, outside larger contexts. */
module Collections {

  datatype Option<T> = None | Some(value: T)

  lemma {:induction false} TakeNext<T>(s: seq<T>, k: int)
    requires 0 <= k < |s|
    ensures s[..k + 1] == s[..k] + [s[k]]
  {
  }

  lemma {:induction false} AppendTake<T>(a: seq<T>, s: seq<T>, k: int)
    requires 0 <= k < |s|
    ensures a + s[..k + 1] == a + s[..k] + [s[k]]
  {
  }

  lemma {:induction false} TakeMember<T>(s: seq<T>, i: int, k: int)
    requires 0 <= i < k <= |s|
    ensures s[i] in s[..k]
  {
    assert s[..k][i] == s[i];
  }

  lemma {:induction false} Assoc<T>(a: seq<T>, b: seq<T>, c: seq<T>)
    ensures a + b + c == a + (b + c)
  {
  }

  lemma {:induction false} SplitAt<T>(s: seq<T>, k: nat)
    requires k <= |s|
    ensures s == s[..k] + s[k..]
  {
  }

  lemma {:induction false} DropDrop<T>(s: seq<T>, j: nat, k: nat)
    requires j + k <= |s|
    ensures s[j..][k..] == s[j + k..]
  {
  }

  lemma {:induction false} TakeTake<T>(s: seq<T>, j: nat, k: nat)
    requires j <= k <= |s|
    ensures s[..k][..j] == s[..j]
  {
  }

  lemma {:induction false} TakeOfAppend<T>(a: seq<T>, b: seq<T>, k: nat)
    requires k <= |a|
    ensures (a + b)[..k] == a[..k]
  {
  }

  lemma {:induction false} EmptyAppend<T>(s: seq<T>)
    ensures [] + s == s && s + [] == s && s[0..] == s
  {
  }

  /** Equal wholes with first parts of equal length have equal parts. */
  lemma {:induction false} Cancel<T>(a: seq<T>, x: seq<T>, b: seq<T>, y: seq<T>)
    requires a + x == b + y && |a| == |b|
    ensures a == b && x == y
  {
    assert (a + x)[..|a|] == a && (b + y)[..|b|] == b;
    assert (a + x)[|a|..] == x && (b + y)[|b|..] == y;
  }

  lemma {:induction false} MapMinusTwice<K, V>(m: map<K, V>, a: set<K>, x: K)
    ensures m - a - {x} == m - (a + {x})
  {
  }

  lemma {:induction false} RemoveTwo<T>(s: set<T>, a: T, b: T)
    ensures s - {a} - {b} == s - {b} - {a}
  {
  }

  lemma {:induction false} UnionRemove<T>(a: set<T>, b: set<T>, t: T)
    requires t in a && a !! b
    ensures a + b - {t} == (a - {t}) + b && (a - {t}) !! b
  {
  }

  lemma {:induction false} SplitOff<T>(a: set<T>, b: set<T>)
    requires b <= a
    ensures a == b + (a - b) && b !! (a - b)
  {
  }

  lemma {:induction false} TakeAll<T>(s: seq<T>)
    ensures s[..|s|] == s
  {
  }

  lemma {:induction false} DisjointFromBoth<T>(a: set<T>, b: set<T>, c: set<T>)
    ensures a !! b && a * c == {} ==> a !! b + c
  {
    assert forall t :: t in a && t in c ==> t in a * c;
  }

  lemma {:induction false} SubsetSize<T>(a: set<T>, b: set<T>)
    requires a <= b
    ensures |a| <= |b|
    decreases |a|
  {
    if a != {} {
      var t :| t in a;
      SubsetSize(a - {t}, b - {t});
    }
  }

  lemma {:induction false} AnyMember<T>(s: set<T>) returns (x: T)
    requires s != {}
    ensures x in s
  {
    x :| x in s;
  }

  lemma {:induction false} MultisetRotate<T>(a: multiset<T>, b: multiset<T>, c: multiset<T>)
    ensures a + b + c == c + b + a
  {
  }

  lemma {:induction false} MultisetShift<T>(
    x: multiset<T>, a: multiset<T>, u: multiset<T>, b: multiset<T>, v: multiset<T>)
    requires a + u == b + v
    ensures x + a + u == x + b + v
  {
    assert x + a + u == x + (a + u);
  }

  lemma {:induction false} MultisetCancel<T>(a: multiset<T>, b: multiset<T>, u: multiset<T>)
    requires a + u == b + u
    ensures a == b
  {
    assert (a + u) - u == a && (b + u) - u == b;
  }

  function Zeros(n: nat): (r: seq<nat>)
    ensures |r| == n
  {
    seq(n, _ => 0)
  }

  lemma {:induction false} OneZeroMore(n: nat, s: seq<nat>)
    ensures Zeros(n + 1) + s == [0] + (Zeros(n) + s)
  {
  }

  /** `ahead` orders the members of `s` up to ties. */
  ghost predicate OrderOn<T(!new)>(s: set<T>, ahead: (T, T) -> bool) {
    && (forall a, b :: a in s && b in s && ahead(a, b) ==> !ahead(b, a))
    && (forall a, b, c :: a in s && b in s && c in s && !ahead(b, a) && !ahead(c, b) ==> !ahead(c, a))
  }

  /** A member that no other comes before. */
  method FirstBy<T(!new, ==)>(s: set<T>, ahead: (T, T) -> bool) returns (first: T)
    requires s != {} && OrderOn(s, ahead)
    ensures first in s && forall x :: x in s ==> !ahead(x, first)
  {
    first :| first in s;
    var todo := s - {first};
    while todo != {}
      invariant todo <= s && first in s && first !in todo
      invariant forall x :: x in s && x !in todo ==> !ahead(x, first)
      decreases |todo|
    {
      ghost var w := AnyMember(todo);
      var x :| x in todo;
      todo := todo - {x};
      if ahead(x, first) {
        first := x;
      }
    }
  }
}
