/** String helpers standing for the PHP built-ins the framework uses:
    `strtolower`, `implode`, the last element of `explode`. */
module Text {

  predicate IsUpper(c: char) {
    'A' <= c <= 'Z'
  }

  /** ASCII lower-casing of one character, as `strtolower` does. */
  function LowerChar(c: char): (d: char)
    ensures !IsUpper(d)
    ensures IsUpper(c) ==> d as int == c as int + 32
    ensures !IsUpper(c) ==> d == c
  {
    if IsUpper(c) then (c as int + 32) as char else c
  }

  /** `strtolower`: every ASCII upper-case letter replaced by its lower-case form. */
  function Lower(s: string): (r: string)
    ensures |r| == |s|
    ensures forall i :: 0 <= i < |s| ==> r[i] == LowerChar(s[i])
  {
    seq(|s|, i requires 0 <= i < |s| => LowerChar(s[i]))
  }

  /** `implode(sep, parts)`. */
  function Join(sep: string, parts: seq<string>): string
  {
    if |parts| == 0 then ""
    else if |parts| == 1 then parts[0]
    else parts[0] + sep + Join(sep, parts[1..])
  }

  /** `n` copies of the string `s`, as `array_map(fn () => s, ids)` makes them. */
  function Repeat(s: string, n: nat): (r: seq<string>)
    ensures |r| == n
    ensures forall i :: 0 <= i < n ==> r[i] == s
  {
    if n == 0 then [] else [s] + Repeat(s, n - 1)
  }

  /** Number of occurrences of `c` in `s`. */
  function CountChar(c: char, s: string): nat
  {
    if |s| == 0 then 0 else (if s[0] == c then 1 else 0) + CountChar(c, s[1..])
  }

  lemma {:induction false} CountCharAppend(c: char, a: string, b: string)
    ensures CountChar(c, a + b) == CountChar(c, a) + CountChar(c, b)
  {
    if |a| == 0 {
      assert a + b == b;
    } else {
      assert (a + b)[1..] == a[1..] + b;
      CountCharAppend(c, a[1..], b);
    }
  }

  lemma {:induction false} CountCharAbsent(c: char, s: string)
    requires c !in s
    ensures CountChar(c, s) == 0
  {
    if |s| > 0 {
      assert s[0] != c;
      assert forall x :: x in s[1..] ==> x in s;
      CountCharAbsent(c, s[1..]);
    }
  }

  /** A list of `n` question marks joined by ", " holds exactly `n` question marks:
      one positional placeholder per bound value. */
  lemma {:induction false} PlaceholderListCount(n: nat)
    ensures CountChar('?', Join(", ", Repeat("?", n))) == n
  {
    if n == 0 {
    } else if n == 1 {
      assert Join(", ", Repeat("?", 1)) == "?";
    } else {
      var tail := Repeat("?", n - 1);
      assert Repeat("?", n)[1..] == tail;
      assert Join(", ", Repeat("?", n)) == "?" + ", " + Join(", ", tail);
      PlaceholderListCount(n - 1);
      CountCharAppend('?', "?" + ", ", Join(", ", tail));
      assert CountChar('?', ", ") == 0;
      CountCharAppend('?', "?", ", ");
    }
  }

  /** The text after the last occurrence of `c` in `s` (all of `s` when `c`
      does not occur): the last element of `explode(c, s)`. */
  function AfterLast(s: string, c: char): (r: string)
    ensures |r| <= |s|
    ensures r == s[|s| - |r|..]
    ensures c !in r
    ensures |r| < |s| ==> s[|s| - |r| - 1] == c
  {
    if |s| == 0 then ""
    else if s[|s| - 1] == c then ""
    else AfterLast(s[..|s| - 1], c) + [s[|s| - 1]]
  }

  /** The segment after the last separator: whatever follows a final `c`
      that `t` does not contain is exactly `t`. */
  lemma {:induction false} AfterLastOfSegment(s: string, c: char, t: string)
    requires c !in t
    ensures AfterLast(s + [c] + t, c) == t
    decreases |t|
  {
    var u := s + [c] + t;
    if |t| == 0 {
      assert u[|u| - 1] == c;
    } else {
      var t' := t[..|t| - 1];
      assert u[..|u| - 1] == s + [c] + t';
      assert u[|u| - 1] == t[|t| - 1];
      AfterLastOfSegment(s, c, t');
      assert t' + [t[|t| - 1]] == t;
    }
  }
}
