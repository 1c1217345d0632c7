// Object paths by the grammar of the D-Bus Specification, section "Valid Object Paths".

module ObjectPaths {
  import opened Prelude
  import opened Wire

  // A non-empty name of letters, digits and underscores.
  predicate IsElement(e: bytes) {
    e != [] && forall i :: 0 <= i < |e| ==> IsLetter(e[i])
  }

  predicate IsLetter(b: u8) {
    0x61 <= b <= 0x7A || 0x41 <= b <= 0x5A || 0x30 <= b <= 0x39 || b == 0x5F
  }

  // Each element behind a slash.
  function Join(es: seq<bytes>): bytes {
    if es == [] then [] else Join(es[..|es| - 1]) + (['/' as u8] + es[|es| - 1])
  }

  ghost predicate AllElements(es: seq<bytes>) {
    forall i :: 0 <= i < |es| ==> IsElement(es[i])
  }

  // The root, or one element or more.
  ghost predicate IsObjectPath(p: bytes) {
    p == ['/' as u8] || exists es :: es != [] && AllElements(es) && p == Join(es)
  }

  lemma JoinSnoc(es: seq<bytes>, e: bytes)
    ensures Join(es + [e]) == Join(es) + (['/' as u8] + e)
  {
    assert (es + [e])[..|es|] == es;
  }

  lemma ElementAppended(p: bytes, e: bytes)
    requires p == [] || (ValidPath(p) && |p| > 1)
    requires IsElement(e)
    ensures ValidPath(p + (['/' as u8] + e)) && |p + (['/' as u8] + e)| > 1
  {
    var n, q := |p|, p + (['/' as u8] + e);
    assert forall i :: n < i < |q| ==> q[i] == e[i - n - 1];
    assert forall i :: 0 <= i < n ==> q[i] == p[i];
  }

  lemma {:induction false} JoinIsValid(es: seq<bytes>)
    requires AllElements(es)
    ensures es != [] ==> ValidPath(Join(es)) && |Join(es)| > 1
    decreases |es|
  {
    if es != [] {
      var n := |es| - 1;
      JoinIsValid(es[..n]);
      ElementAppended(Join(es[..n]), es[n]);
    }
  }

  // The last element and what is in front of it.
  lemma LastElement(p: bytes) returns (k: nat)
    requires ValidPath(p) && |p| > 1
    ensures k < |p| - 1 && p[k] == '/' as u8 && IsElement(p[k + 1..])
    ensures k > 0 ==> ValidPath(p[..k]) && |p[..k]| > 1
  {
    k := |p| - 2;
    while p[k] != '/' as u8
      invariant 0 <= k < |p| - 1
      invariant forall i :: k < i < |p| ==> p[i] != '/' as u8
      decreases k
    {
      k := k - 1;
    }
  }

  lemma {:induction false} ValidIsJoin(p: bytes) returns (es: seq<bytes>)
    requires ValidPath(p) && |p| > 1
    ensures es != [] && AllElements(es) && p == Join(es)
    decreases |p|
  {
    var k := LastElement(p);
    var front, e := [], p[k + 1..];
    if k > 0 {
      front := ValidIsJoin(p[..k]);
    }
    es := front + [e];
    JoinSnoc(front, e);
    assert p == p[..k] + (['/' as u8] + e);
  }

  // What the code's check of a path accepts is exactly that.
  lemma ValidPathIff(p: bytes)
    ensures ValidPath(p) <==> IsObjectPath(p)
  {
    if ValidPath(p) && |p| > 1 {
      var es := ValidIsJoin(p);
    } else if ValidPath(p) {
      assert p == ['/' as u8];
    }
    if p != ['/' as u8] && IsObjectPath(p) {
      var es :| es != [] && AllElements(es) && p == Join(es);
      JoinIsValid(es);
    }
  }
}
