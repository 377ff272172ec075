/**
 * The string operations the extractor relies on: Go's `strings.HasPrefix`,
 * `strings.Contains`, the `%d` verb of `fmt.Sprintf`, and the split of a path
 * at its last `/`, which is what makes the output paths of main.go unique.
 */
module Text {

  /** Go's `strings.HasPrefix(s, p)`. */
  predicate HasPrefix(s: string, p: string) {
    |p| <= |s| && s[..|p|] == p
  }

  /** Go's `strings.Contains(s, sub)`: some start position of `s` begins `sub`. */
  predicate Contains(s: string, sub: string)
    decreases |s|
  {
    HasPrefix(s, sub) || (|s| > 0 && Contains(s[1..], sub))
  }

  /** `sub` occurs in `s` starting at position `i`. */
  predicate OccursAt(s: string, sub: string, i: nat) {
    i + |sub| <= |s| && s[i..i + |sub|] == sub
  }

  /** The scan of `Contains` finds `sub` exactly when it occurs somewhere in `s`. */
  lemma {:induction false} ContainsIff(s: string, sub: string)
    ensures Contains(s, sub) <==> exists i: nat :: OccursAt(s, sub, i)
  {
    if Contains(s, sub) {
      if HasPrefix(s, sub) {
        assert OccursAt(s, sub, 0);
      } else {
        ContainsIff(s[1..], sub);
        var j: nat :| OccursAt(s[1..], sub, j);
        assert s[j + 1..j + 1 + |sub|] == s[1..][j..j + |sub|];
        assert OccursAt(s, sub, j + 1);
      }
    }
    if exists i: nat :: OccursAt(s, sub, i) {
      var i: nat :| OccursAt(s, sub, i);
      if i == 0 {
        assert HasPrefix(s, sub);
      } else {
        assert s[1..][i - 1..i - 1 + |sub|] == s[i..i + |sub|];
        assert OccursAt(s[1..], sub, i - 1);
        ContainsIff(s[1..], sub);
      }
    }
  }

  /** The decimal digit for `d`. */
  function Digit(d: nat): (c: char)
    requires d < 10
    ensures '0' <= c <= '9'
  {
    ('0' as int + d) as char
  }

  /** The number a string of decimal digits spells, most significant first. */
  function Value(s: string): nat
    requires forall i :: 0 <= i < |s| ==> '0' <= s[i] <= '9'
    decreases |s|
  {
    if s == [] then 0
    else 10 * Value(s[..|s| - 1]) + (s[|s| - 1] as int - '0' as int)
  }

  /** Go's `%d` rendering of a non-negative integer: the digits that spell
      `n`, with no sign and no leading zero. */
  function Decimal(n: nat): (r: string)
    ensures |r| > 0
    ensures forall i :: 0 <= i < |r| ==> '0' <= r[i] <= '9'
    ensures Value(r) == n
    ensures r[0] == '0' ==> n == 0
    ensures |r| == 1 <==> n < 10
  {
    if n < 10 then [Digit(n)]
    else
      var s, d := Decimal(n / 10), Digit(n % 10);
      assert (s + [d])[..|s|] == s;
      s + [d]
  }

  /** Two numbers with the same rendering are the same number. */
  lemma DecimalInjective(a: nat, b: nat)
    requires Decimal(a) == Decimal(b)
    ensures a == b
  {
    assert a == Value(Decimal(a)) == Value(Decimal(b)) == b;
  }

  /** What follows the last `/` of `s` (all of `s` when it has none). */
  function AfterLastSlash(s: string): string
    decreases |s|
  {
    if s == [] then []
    else if s[|s| - 1] == '/' then []
    else AfterLastSlash(s[..|s| - 1]) + [s[|s| - 1]]
  }

  /** What precedes the last `/` of `s` (empty when it has none). */
  function BeforeLastSlash(s: string): string
    decreases |s|
  {
    if s == [] then []
    else if s[|s| - 1] == '/' then s[..|s| - 1]
    else BeforeLastSlash(s[..|s| - 1])
  }

  /** Joining with `/` a last segment free of `/` can be undone. */
  lemma {:induction false} SplitAtLastSlash(dir: string, seg: string)
    requires '/' !in seg
    ensures AfterLastSlash(dir + "/" + seg) == seg
    ensures BeforeLastSlash(dir + "/" + seg) == dir
    decreases |seg|
  {
    var s := dir + "/" + seg;
    if seg == [] {
      assert s == dir + "/";
      assert s[|s| - 1] == '/';
      assert s[..|s| - 1] == dir;
    } else {
      var init, last := seg[..|seg| - 1], seg[|seg| - 1];
      assert last in seg;
      assert s[|s| - 1] == last && last != '/';
      assert s[..|s| - 1] == dir + "/" + init;
      assert '/' !in init by {
        forall i | 0 <= i < |init| ensures init[i] != '/' {
          assert init[i] == seg[i];
        }
      }
      SplitAtLastSlash(dir, init);
      assert AfterLastSlash(s) == AfterLastSlash(s[..|s| - 1]) + [last];
      assert BeforeLastSlash(s) == BeforeLastSlash(s[..|s| - 1]);
      assert init + [last] == seg;
    }
  }
}
