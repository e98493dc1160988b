/** Facts about concatenation that the solver needs spelled out. */
module Sequences {
  lemma Reassociate<T>(a: seq<T>, b: seq<T>, c: seq<T>)
    ensures (a + b) + c == a + (b + c)
  {
  }

  lemma Uncons<T>(s: seq<T>)
    requires s != []
    ensures [s[0]] + s[1..] == s
  {
  }

  lemma Shift<T>(a: seq<T>, b: seq<T>)
    requires b != []
    ensures a + [b[0]] + b[1..] == a + b
  {
  }

  lemma WithoutLater<T>(s: seq<T>, k: nat)
    requires k + 1 < |s|
    ensures [s[0]] + (s[1..][..k] + s[1..][k + 1..]) == s[..k + 1] + s[k + 2..]
  {
  }

  lemma InsertedElements<T>(s: seq<T>, k: nat, x: T)
    requires k <= |s|
    ensures var t := s[..k] + [x] + s[k..];
            forall j | 0 <= j < |t| :: t[j] == if j < k then s[j] else if j == k then x else s[j - 1]
  {
  }

  lemma RemovedElements<T>(s: seq<T>, k: nat)
    requires k < |s|
    ensures var t := s[..k] + s[k + 1..];
            forall j | 0 <= j < |t| :: t[j] == if j < k then s[j] else s[j + 1]
  {
  }

  lemma FirstOfPrefix<T>(s: seq<T>, k: nat)
    requires 0 < k <= |s|
    ensures s[..1] + s[1..][..k - 1] == s[..k]
  {
  }

  lemma LastOfFront<T>(s: seq<T>, k: nat)
    requires 0 < k <= |s|
    ensures s[..k][..k - 1] == s[..k - 1] && s[k - 1..] == [s[k - 1]] + s[k..]
  {
  }
}
