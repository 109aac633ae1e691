/** Small things that several parts share. */
module Common {
  datatype Option<T> = None | Some(value: T)

  // ---- division as in C ----

  function Magnitude(x: int): (m: int)
    ensures m >= 0
  {
    if x < 0 then -x else x
  }

  /** Towards zero. */
  function Quotient(a: int, b: int): int
    requires b != 0
  {
    var q := Magnitude(a) / Magnitude(b);
    if (a < 0) == (b < 0) then q else -q
  }

  // ---- sequences without repetition ----

  ghost predicate NoDup<T>(s: seq<T>) {
    forall i, j :: 0 <= i < j < |s| ==> s[i] != s[j]
  }

  lemma TailNoDup<T(!new)>(s: seq<T>)
    requires s != [] && NoDup(s)
    ensures NoDup(s[1..]) && forall x :: x in s[1..] <==> x in s && x != s[0]
  {
  }

  lemma SnocNoDup<T(!new)>(s: seq<T>, x: T)
    requires x !in s && NoDup(s)
    ensures NoDup(s + [x]) && forall y :: y in s + [x] <==> y in s || y == x
  {
  }

  function Members<T>(s: seq<T>): set<T> {
    set x | x in s
  }

  lemma {:induction false} MemberCount<T(!new)>(s: seq<T>)
    requires NoDup(s)
    ensures |Members(s)| == |s|
  {
    if s != [] {
      TailNoDup(s);
      MemberCount(s[1..]);
      assert Members(s) == Members(s[1..]) + {s[0]};
    }
  }

  function Below(n: nat): (r: set<int>)
    ensures |r| == n && forall k :: k in r <==> 0 <= k < n
  {
    if n == 0 then {} else Below(n - 1) + {n - 1}
  }

  /** As many different numbers below `n` as there are are all of them. */
  lemma Pigeonhole(s: seq<int>, n: nat)
    requires |s| == n && NoDup(s) && forall x :: x in s ==> 0 <= x < n
    ensures forall k :: 0 <= k < n ==> k in s
  {
    MemberCount(s);
    var rest := Below(n) - Members(s);
    assert Below(n) == Members(s) + rest;
    assert rest == {};
    forall k | 0 <= k < n ensures k in s {
      assert k in Below(n) && k in Members(s);
    }
  }
}
