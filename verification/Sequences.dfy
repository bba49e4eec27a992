/** Sequences without repetition, with an element taken out, and with some left out. */
module Sequences {
  /** No element occurs twice. */
  ghost predicate NoRepeat<T>(s: seq<T>) {
    s != [] ==> s[|s| - 1] !in s[..|s| - 1] && NoRepeat(s[..|s| - 1])
  }

  lemma {:induction false} NoRepeatIff<T>(s: seq<T>)
    ensures NoRepeat(s) <==> forall i, j :: 0 <= i < j < |s| ==> s[i] != s[j]
  {
    if s == [] {
    } else {
      var n := |s| - 1;
      var init := s[..n];
      NoRepeatIff(init);
      assert forall i :: 0 <= i < n ==> init[i] == s[i];
      if forall i, j :: 0 <= i < j < |s| ==> s[i] != s[j] {
        assert forall i, j :: 0 <= i < j < |init| ==> init[i] != init[j];
      }
      if NoRepeat(s) {
        forall i, j | 0 <= i < j < |s|
          ensures s[i] != s[j]
        {
          assert init[i] == s[i] && s[i] in init;
        }
      }
    }
  }

  lemma NotBefore<T>(s: seq<T>, k: nat)
    requires NoRepeat(s) && k < |s|
    ensures s[k] !in s[..k]
  {
    NoRepeatIff(s);
  }

  lemma NoRepeatNext<T>(s: seq<T>, x: T)
    requires NoRepeat(s) && x !in s
    ensures NoRepeat(s + [x])
  {
    assert (s + [x])[..|s|] == s;
  }

  function Without<T>(l: seq<T>, k: nat): seq<T>
    requires k < |l|
  {
    l[..k] + l[k + 1..]
  }

  lemma {:induction false} WithoutNoRepeat<T>(s: seq<T>, k: nat)
    requires k < |s| && NoRepeat(s)
    ensures NoRepeat(Without(s, k)) && s[k] !in Without(s, k)
  {
    var n := |s| - 1;
    if k == n {
      assert Without(s, k) == s[..n];
    } else {
      WithoutNoRepeat(s[..n], k);
      assert Without(s, k) == Without(s[..n], k) + [s[n]];
      assert s[..n][k] in s[..n];
    }
  }

  lemma WithoutHolds<T>(s: seq<T>, k: nat, x: T)
    requires k < |s|
    ensures x in s <==> x == s[k] || x in Without(s, k)
  {
    if x in s {
      var i :| 0 <= i < |s| && s[i] == x;
      assert i != k ==> Without(s, k)[if i < k then i else i - 1] == x;
    }
  }

  function ToFront<T>(l: seq<T>, k: nat): seq<T>
    requires k < |l|
  {
    [l[k]] + Without(l, k)
  }

  /** `s` is `t` with some elements left out. */
  ghost predicate Sublist<T>(s: seq<T>, t: seq<T>) {
    if s == [] then true
    else if t == [] then false
    else (s[0] == t[0] && Sublist(s[1..], t[1..])) || Sublist(s, t[1..])
  }

  lemma {:induction false} SublistRefl<T>(s: seq<T>)
    ensures Sublist(s, s)
  {
    if s == [] {
    } else {
      SublistRefl(s[1..]);
    }
  }

  lemma {:induction false} SublistWithout<T>(s: seq<T>, k: nat)
    requires k < |s|
    ensures Sublist(Without(s, k), s)
  {
    if k == 0 {
      SublistRefl(s[1..]);
      assert Without(s, 0) == s[1..];
    } else {
      SublistWithout(s[1..], k - 1);
      assert Without(s, k)[1..] == Without(s[1..], k - 1);
    }
  }

  lemma {:induction false} SublistTrans<T>(r: seq<T>, s: seq<T>, t: seq<T>)
    requires Sublist(r, s) && Sublist(s, t)
    ensures Sublist(r, t)
    decreases |s| + |t|
  {
    if r == [] {
    } else {
      if s[0] == t[0] && Sublist(s[1..], t[1..]) {
        if r[0] == s[0] && Sublist(r[1..], s[1..]) {
          SublistTrans(r[1..], s[1..], t[1..]);
        } else {
          SublistTrans(r, s[1..], t[1..]);
        }
      } else {
        SublistTrans(r, s, t[1..]);
      }
    }
  }

  lemma {:induction false} SublistPrefix<T>(s: seq<T>, n: nat)
    requires n <= |s|
    ensures Sublist(s[..n], s)
  {
    if n == 0 {
    } else {
      SublistPrefix(s[1..], n - 1);
      assert s[..n][1..] == s[1..][..n - 1];
    }
  }

  lemma {:induction false} SublistIn<T>(s: seq<T>, t: seq<T>, x: T)
    requires Sublist(s, t) && x in s
    ensures x in t
    decreases |t|
  {
    if s[0] == t[0] && Sublist(s[1..], t[1..]) {
      if x in s[1..] {
        SublistIn(s[1..], t[1..], x);
      }
    } else {
      SublistIn(s, t[1..], x);
    }
  }

  /** One more element at the end of the longer, taken over or left out. */
  lemma {:induction false} SublistNext<T>(s: seq<T>, t: seq<T>, x: T)
    requires Sublist(s, t)
    ensures Sublist(s, t + [x]) && Sublist(s + [x], t + [x])
    decreases |t|
  {
    if t == [] {
      assert Sublist([x], [x]);
    } else {
      assert (t + [x])[1..] == t[1..] + [x];
      if s != [] && s[0] == t[0] && Sublist(s[1..], t[1..]) {
        SublistNext(s[1..], t[1..], x);
        assert (s + [x])[1..] == s[1..] + [x];
      } else {
        SublistNext(s, t[1..], x);
      }
    }
  }
}
