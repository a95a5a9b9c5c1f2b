/**
 * The two JavaScript string primitives the task layer relies on:
 * `String.prototype.length`, which counts UTF-16 code units, and
 * `String.prototype.trim`, which strips ECMAScript white space and line
 * terminators from both ends.
 */
module JsStrings {

  /**
   * ECMAScript WhiteSpace and LineTerminator code points, the set that
   * `trim` removes: TAB, VT, FF, SP, NBSP, ZWNBSP, the other space
   * separators (category Zs), LF, CR, LS and PS.
   */
  predicate IsWhitespace(c: char) {
    var n := c as int;
    || n == 0x09 || n == 0x0B || n == 0x0C || n == 0x20 || n == 0xA0 || n == 0xFEFF
    || n == 0x1680 || (0x2000 <= n <= 0x200A) || n == 0x202F || n == 0x205F || n == 0x3000
    || n == 0x0A || n == 0x0D || n == 0x2028 || n == 0x2029
  }

  /** True when `s` has at least one character that `trim` keeps. */
  predicate HasNonWhitespace(s: string) {
    exists i :: 0 <= i < |s| && !IsWhitespace(s[i])
  }

  /** True when `s` neither starts nor ends with white space. */
  predicate IsTrimmed(s: string) {
    |s| > 0 ==> !IsWhitespace(s[0]) && !IsWhitespace(s[|s| - 1])
  }

  /** Number of UTF-16 code units of one character: two for a supplementary-plane character. */
  function CodeUnits(c: char): nat {
    if c as int >= 0x1_0000 then 2 else 1
  }

  /** JavaScript's `s.length`: the number of UTF-16 code units of `s`. */
  function Utf16Length(s: string): nat {
    if |s| == 0 then 0 else CodeUnits(s[0]) + Utf16Length(s[1..])
  }

  /** True when every character of `s` lies in the Basic Multilingual Plane. */
  predicate IsBmp(s: string) {
    forall i :: 0 <= i < |s| ==> s[i] as int < 0x1_0000
  }

  lemma {:induction false} Utf16LengthAppend(a: string, b: string)
    ensures Utf16Length(a + b) == Utf16Length(a) + Utf16Length(b)
    decreases |a|
  {
    if |a| == 0 {
      assert a + b == b;
    } else {
      assert (a + b)[1..] == a[1..] + b;
      Utf16LengthAppend(a[1..], b);
    }
  }

  /** A string has at least as many UTF-16 code units as characters, and exactly as many when it is BMP-only. */
  lemma {:induction false} Utf16LengthBounds(s: string)
    ensures |s| <= Utf16Length(s) <= 2 * |s|
    ensures IsBmp(s) <==> Utf16Length(s) == |s|
    decreases |s|
  {
    if |s| > 0 {
      Utf16LengthBounds(s[1..]);
      if IsBmp(s[1..]) && s[0] as int < 0x1_0000 {
        forall i | 0 <= i < |s| ensures s[i] as int < 0x1_0000 {
          if i > 0 { assert s[i] == s[1..][i - 1]; }
        }
      }
      if IsBmp(s) {
        forall i | 0 <= i < |s| - 1 ensures s[1..][i] as int < 0x1_0000 {
          assert s[1..][i] == s[i + 1];
        }
      }
    }
  }

  /** A slice never has more UTF-16 code units than the string it is cut from. */
  lemma {:induction false} Utf16LengthSlice(s: string, i: nat, j: nat)
    requires i <= j <= |s|
    ensures Utf16Length(s[i..j]) <= Utf16Length(s)
  {
    assert s == s[..i] + s[i..j] + s[j..];
    Utf16LengthAppend(s[..i] + s[i..j], s[j..]);
    Utf16LengthAppend(s[..i], s[i..j]);
  }

  /** `trimStart`: drops the leading white space, keeping a suffix of `s`. */
  function TrimStart(s: string): (r: string)
    ensures |r| <= |s| && r == s[|s| - |r|..]
    ensures forall i :: 0 <= i < |s| - |r| ==> IsWhitespace(s[i])
    ensures |r| > 0 ==> !IsWhitespace(r[0])
    decreases |s|
  {
    if |s| > 0 && IsWhitespace(s[0]) then TrimStart(s[1..]) else s
  }

  /** `trimEnd`: drops the trailing white space, keeping a prefix of `s`. */
  function TrimEnd(s: string): (r: string)
    ensures |r| <= |s| && r == s[..|r|]
    ensures forall i :: |r| <= i < |s| ==> IsWhitespace(s[i])
    ensures |r| > 0 ==> !IsWhitespace(r[|r| - 1])
    decreases |s|
  {
    if |s| > 0 && IsWhitespace(s[|s| - 1]) then TrimEnd(s[..|s| - 1]) else s
  }

  /** Number of leading white-space characters of `s`, where the trimmed string starts. */
  function TrimOffset(s: string): nat {
    |s| - |TrimStart(s)|
  }

  /** JavaScript's `s.trim()`: the infix of `s` left after dropping white space at both ends. */
  function Trim(s: string): (r: string)
    ensures IsTrimmed(r)
    ensures TrimOffset(s) + |r| <= |s| && r == s[TrimOffset(s)..TrimOffset(s) + |r|]
  {
    var t := TrimStart(s);
    var r := TrimEnd(t);
    assert |r| > 0 ==> r[0] == t[0];
    r
  }

  /** What `trim` drops is white space: everything before and after the kept infix. */
  lemma {:induction false} TrimDropsOnlyWhitespace(s: string)
    ensures forall i :: 0 <= i < TrimOffset(s) ==> IsWhitespace(s[i])
    ensures forall i :: TrimOffset(s) + |Trim(s)| <= i < |s| ==> IsWhitespace(s[i])
  {
    var t := TrimStart(s);
    var r := TrimEnd(t);
    var k := |s| - |t|;
    assert r == Trim(s) && k == TrimOffset(s);
    forall i | k + |r| <= i < |s| ensures IsWhitespace(s[i]) {
      var j := i - k;
      assert |r| <= j < |t| && s[i] == t[j];
    }
  }

  /** `trim` leaves nothing exactly when every character is white space; otherwise it keeps every character that is not white space in place. */
  lemma {:induction false} TrimEmptyIff(s: string)
    ensures |Trim(s)| == 0 <==> !HasNonWhitespace(s)
  {
    TrimDropsOnlyWhitespace(s);
    if |Trim(s)| == 0 {
      assert forall i :: 0 <= i < |s| ==> IsWhitespace(s[i]);
    } else {
      assert !IsWhitespace(Trim(s)[0]);
    }
  }

  /** The trimmed string is never longer, in UTF-16 code units, than the input. */
  lemma {:induction false} TrimShortens(s: string)
    ensures Utf16Length(Trim(s)) <= Utf16Length(s)
  {
    Utf16LengthSlice(s, TrimOffset(s), TrimOffset(s) + |Trim(s)|);
  }

  /** Trimming a trimmed string changes nothing, so `trim` is idempotent. */
  lemma {:induction false} TrimIdempotent(s: string)
    ensures IsTrimmed(s) ==> Trim(s) == s
    ensures Trim(Trim(s)) == Trim(s)
  {
    var r := Trim(s);
    assert IsTrimmed(r);
  }

  /** Padding `mid` with white space on either side is exactly what `trim` undoes. */
  lemma {:induction false} TrimStripsPadding(pre: string, mid: string, post: string)
    requires forall i :: 0 <= i < |pre| ==> IsWhitespace(pre[i])
    requires forall i :: 0 <= i < |post| ==> IsWhitespace(post[i])
    requires |mid| > 0 && IsTrimmed(mid)
    ensures Trim(pre + mid + post) == mid
  {
    var tail := mid + post;
    var whole := pre + mid + post;
    assert whole == pre + tail;
    assert tail[0] == mid[0];
    TrimStartPadding(pre, tail);
    TrimEndPadding(mid, post);
    assert TrimStart(whole) == tail;
  }

  lemma {:induction false} TrimStartPadding(pre: string, s: string)
    requires forall i :: 0 <= i < |pre| ==> IsWhitespace(pre[i])
    requires |s| > 0 && !IsWhitespace(s[0])
    ensures TrimStart(pre + s) == s
    decreases |pre|
  {
    if |pre| > 0 {
      assert (pre + s)[1..] == pre[1..] + s;
      TrimStartPadding(pre[1..], s);
    } else {
      assert pre + s == s;
    }
  }

  lemma {:induction false} TrimEndPadding(s: string, post: string)
    requires forall i :: 0 <= i < |post| ==> IsWhitespace(post[i])
    requires |s| > 0 && !IsWhitespace(s[|s| - 1])
    ensures TrimEnd(s + post) == s
    decreases |post|
  {
    if |post| > 0 {
      assert (s + post)[..|s + post| - 1] == s + post[..|post| - 1];
      TrimEndPadding(s, post[..|post| - 1]);
    } else {
      assert s + post == s;
    }
  }
}
