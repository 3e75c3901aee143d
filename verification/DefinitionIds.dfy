/** Definition ids: container key, a fixed infix, and the solid's number. */
module DefinitionIds {
  import opened SceneTree

  function Digit(d: nat): char
    requires d < 10
  {
    '0' + d as char
  }

  /** Decimal digits, most significant first. */
  function Decimal(n: nat): string {
    if n < 10 then [Digit(n)] else Decimal(n / 10) + [Digit(n % 10)]
  }

  function DefinitionId(key: Key, index: nat): string {
    key + ":solid:" + Decimal(index + 1)
  }

  // ---------------------------------------------------------------- reading a number back

  ghost predicate Digits(s: string) {
    forall i :: 0 <= i < |s| ==> '0' <= s[i] <= '9'
  }

  function ValueOf(s: string): nat
    requires Digits(s)
  {
    if s == [] then 0 else ValueOf(s[..|s| - 1]) * 10 + (s[|s| - 1] - '0') as nat
  }

  lemma {:induction false} DecimalRoundTrip(n: nat)
    ensures Digits(Decimal(n)) && ValueOf(Decimal(n)) == n
  {
    if n >= 10 {
      DecimalRoundTrip(n / 10);
      var s := Decimal(n);
      assert s[..|s| - 1] == Decimal(n / 10);
    }
  }

  /** A prefix that ends in a colon and a suffix of digits are determined by
      their concatenation. */
  lemma SplitUnique(p: string, d: string, q: string, e: string)
    requires |p| > 0 && p[|p| - 1] == ':' && Digits(d)
    requires |q| > 0 && q[|q| - 1] == ':' && Digits(e)
    requires p + d == q + e
    ensures p == q && d == e
  {
    var s := p + d;
    assert s[|p| - 1] == ':' && s[|q| - 1] == ':';
    assert forall i :: |p| <= i < |s| ==> s[i] == d[i - |p|];
    assert forall i :: |q| <= i < |s| ==> s[i] == e[i - |q|];
    assert |p| == |q|;
    assert p == s[..|p|] && q == s[..|q|] && d == s[|p|..] && e == s[|q|..];
  }

  /** No two solids share an id, whatever characters the keys contain. */
  lemma IdsInjective(key: Key, index: nat, key': Key, index': nat)
    ensures DefinitionId(key, index) == DefinitionId(key', index') <==> key == key' && index == index'
  {
    if DefinitionId(key, index) == DefinitionId(key', index') {
      DecimalRoundTrip(index + 1);
      DecimalRoundTrip(index' + 1);
      SplitUnique(key + ":solid:", Decimal(index + 1), key' + ":solid:", Decimal(index' + 1));
      var s := key + ":solid:";
      assert key == s[..|s| - 7] && key' == s[..|s| - 7];
    }
  }
}
