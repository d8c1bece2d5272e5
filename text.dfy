/**
 * Strings and integers the way the Java runtime treats them: `String.trim`,
 * the words that a split on the regular expression `\s+` yields, decimal
 * rendering of integers, truncating division and 32-bit wrap-around.
 */
module Text {

  // ---------------------------------------------------------------- trimming

  /** `String.trim` removes every leading and trailing character up to U+0020. */
  predicate Trimmable(c: char) { c <= ' ' }

  /** Drops the leading trimmable characters. */
  function TrimStart(s: string): (r: string)
    ensures |r| <= |s| && r == s[|s| - |r|..]
    ensures forall k :: 0 <= k < |s| - |r| ==> Trimmable(s[k])
    ensures r != [] ==> !Trimmable(r[0])
  {
    if s != [] && Trimmable(s[0]) then
      var r := TrimStart(s[1..]);
      assert s[1..][|s| - 1 - |r|..] == s[|s| - |r|..];
      assert forall k :: 1 <= k < |s| - |r| ==> s[k] == s[1..][k - 1];
      r
    else s
  }

  /** Drops the trailing trimmable characters. */
  function TrimEnd(s: string): (r: string)
    ensures |r| <= |s| && r == s[..|r|]
    ensures forall k :: |r| <= k < |s| ==> Trimmable(s[k])
    ensures r != [] ==> !Trimmable(r[|r| - 1])
  {
    if s != [] && Trimmable(s[|s| - 1]) then
      var r := TrimEnd(s[..|s| - 1]);
      assert s[..|s| - 1][..|r|] == s[..|r|];
      assert forall k :: |r| <= k < |s| - 1 ==> s[k] == s[..|s| - 1][k];
      r
    else s
  }

  /** Java's `String.trim`. */
  function Trim(s: string): string
  {
    TrimEnd(TrimStart(s))
  }

  /**
   * `Trim(s)` is the slice of `s` left after removing the trimmable characters at both ends:
   * it is empty exactly when every character is trimmable, and otherwise starts and ends
   * with a character that is not.
   */
  lemma TrimSpec(s: string)
    ensures exists i, j :: 0 <= i <= j <= |s| && Trim(s) == s[i..j]
                           && (forall k :: 0 <= k < i || j <= k < |s| ==> Trimmable(s[k]))
    ensures Trim(s) == [] <==> forall k :: 0 <= k < |s| ==> Trimmable(s[k])
    ensures Trim(s) != [] ==> !Trimmable(Trim(s)[0]) && !Trimmable(Trim(s)[|Trim(s)| - 1])
  {
    var i, j := TrimBounds(s);
    if Trim(s) != [] {
      assert Trim(s)[0] == s[i];
    }
  }

  /** The bounds of the slice that `Trim` keeps. */
  lemma TrimBounds(s: string) returns (i: nat, j: nat)
    ensures i <= j <= |s| && Trim(s) == s[i..j]
    ensures forall k :: 0 <= k < i || j <= k < |s| ==> Trimmable(s[k])
  {
    var t := TrimStart(s);
    var r := TrimEnd(t);
    i, j := |s| - |t|, |s| - |t| + |r|;
    assert r == t[..|r|];
    assert t == s[i..];
    forall k | 0 <= k < i || j <= k < |s|
      ensures Trimmable(s[k])
    {
      if j <= k {
        assert s[k] == t[k - i];
      }
    }
  }

  /**
   * Trimming removes exactly the surrounding trimmable characters from a string that starts
   * and ends with one that is not.
   */
  lemma TrimAround(lead: string, m: string, trail: string)
    requires forall k :: 0 <= k < |lead| ==> Trimmable(lead[k])
    requires forall k :: 0 <= k < |trail| ==> Trimmable(trail[k])
    requires m != [] && !Trimmable(m[0]) && !Trimmable(m[|m| - 1])
    ensures Trim(lead + m + trail) == m
  {
    assert lead + m + trail == lead + (m + trail);
    TrimStartLead(lead, m + trail);
    TrimEndTrail(m, trail);
  }

  lemma {:induction false} TrimStartLead(lead: string, rest: string)
    requires forall k :: 0 <= k < |lead| ==> Trimmable(lead[k])
    requires rest != [] && !Trimmable(rest[0])
    ensures TrimStart(lead + rest) == rest
    decreases |lead|
  {
    if lead == [] {
      assert lead + rest == rest;
    } else {
      var s := lead + rest;
      assert s[0] == lead[0] && Trimmable(s[0]);
      assert s[1..] == lead[1..] + rest;
      assert TrimStart(s) == TrimStart(s[1..]);
      forall k | 0 <= k < |lead[1..]| ensures Trimmable(lead[1..][k]) {
        assert lead[1..][k] == lead[k + 1];
      }
      TrimStartLead(lead[1..], rest);
    }
  }

  lemma {:induction false} TrimEndTrail(m: string, trail: string)
    requires forall k :: 0 <= k < |trail| ==> Trimmable(trail[k])
    requires m != [] && !Trimmable(m[|m| - 1])
    ensures TrimEnd(m + trail) == m
    decreases |trail|
  {
    if trail == [] {
      assert m + trail == m;
    } else {
      var shorter := trail[..|trail| - 1];
      assert (m + trail)[..|m + trail| - 1] == m + shorter;
      TrimEndTrail(m, shorter);
    }
  }

  // ------------------------------------------------------------------- words

  /** A character matched by `\s` in a Java regular expression: `[ \t\n\x0B\f\r]`. */
  predicate IsSpace(c: char)
  {
    c == ' ' || c == '\t' || c == '\n' || c == '\U{000B}' || c == '\U{000C}' || c == '\r'
  }

  predicate NoSpace(w: string) { forall k :: 0 <= k < |w| ==> !IsSpace(w[k]) }

  predicate AllSpace(w: string) { forall k :: 0 <= k < |w| ==> IsSpace(w[k]) }

  /** A keyword: a non-empty run of characters none of which is whitespace. */
  predicate IsWord(w: string) { w != [] && NoSpace(w) }

  /** Length of the longest prefix of `s` that holds no whitespace. */
  function RunLength(s: string): (n: nat)
    ensures n <= |s|
    ensures NoSpace(s[..n])
    ensures n < |s| ==> IsSpace(s[n])
  {
    if s == [] || IsSpace(s[0]) then 0
    else
      var m := RunLength(s[1..]);
      assert s[..m + 1] == [s[0]] + s[1..][..m];
      m + 1
  }

  /**
   * The maximal whitespace-free runs of `s`, in order. On a string that neither starts nor
   * ends with whitespace this is what Java's `split("\\s+")` returns.
   */
  function Words(s: string): (ws: seq<string>)
    ensures forall k :: 0 <= k < |ws| ==> IsWord(ws[k])
    decreases |s|
  {
    if s == [] then []
    else if IsSpace(s[0]) then Words(s[1..])
    else
      var n := RunLength(s);
      [s[..n]] + Words(s[n..])
  }

  /** Leading whitespace does not change the words. */
  lemma {:induction false} WordsAfterSpace(sp: string, s: string)
    requires AllSpace(sp)
    ensures Words(sp + s) == Words(s)
    decreases |sp|
  {
    if sp != [] {
      assert AllSpace(sp[1..]) by {
        forall k | 0 <= k < |sp[1..]| ensures IsSpace(sp[1..][k]) {
          assert sp[1..][k] == sp[k + 1];
        }
      }
      assert (sp + s)[0] == sp[0];
      assert (sp + s)[1..] == sp[1..] + s;
      assert Words(sp + s) == Words(sp[1..] + s);
      WordsAfterSpace(sp[1..], s);
    } else {
      assert sp + s == s;
    }
  }

  /** A string made only of whitespace has no words. */
  lemma WordsOfSpace(sp: string)
    requires AllSpace(sp)
    ensures Words(sp) == []
  {
    WordsAfterSpace(sp, []);
    assert sp + [] == sp;
  }

  /** A word followed by whitespace or by nothing is the first word. */
  lemma WordThenRest(w: string, rest: string)
    requires IsWord(w)
    requires rest == [] || IsSpace(rest[0])
    ensures Words(w + rest) == [w] + Words(rest)
  {
    var s := w + rest;
    RunLengthOfWord(w, rest);
    assert s[0] == w[0];
    assert s[..|w|] == w && s[|w|..] == rest;
  }

  lemma {:induction false} RunLengthOfWord(w: string, rest: string)
    requires NoSpace(w)
    requires rest == [] || IsSpace(rest[0])
    ensures RunLength(w + rest) == |w|
    decreases |w|
  {
    if w == [] {
      assert w + rest == rest;
    } else {
      assert (w + rest)[0] == w[0];
      assert (w + rest)[1..] == w[1..] + rest;
      RunLengthOfWord(w[1..], rest);
    }
  }

  /**
   * The layout `seps[0] + ws[0] + seps[1] + ... + ws[n-1] + seps[n]` of words between
   * whitespace separators.
   */
  function Layout(ws: seq<string>, seps: seq<string>): string
    requires |seps| == |ws| + 1
    decreases |ws|
  {
    if ws == [] then seps[0] else seps[0] + ws[0] + Layout(ws[1..], seps[1..])
  }

  /** Separators are whitespace; the ones between two words are non-empty. */
  predicate Separators(ws: seq<string>, seps: seq<string>)
  {
    |seps| == |ws| + 1
    && (forall k :: 0 <= k < |seps| ==> AllSpace(seps[k]))
    && (forall k :: 0 < k < |ws| ==> seps[k] != [])
  }

  /**
   * Words are the maximal whitespace-free runs in order of appearance: however the words
   * are separated and surrounded by whitespace, `Words` gives them back.
   */
  lemma {:induction false} WordsOfLayout(ws: seq<string>, seps: seq<string>)
    requires forall k :: 0 <= k < |ws| ==> IsWord(ws[k])
    requires Separators(ws, seps)
    ensures Words(Layout(ws, seps)) == ws
    decreases |ws|
  {
    if ws == [] {
      WordsOfSpace(seps[0]);
    } else {
      var rest := Layout(ws[1..], seps[1..]);
      assert Separators(ws[1..], seps[1..]) by {
        forall k | 0 < k < |ws[1..]| ensures seps[1..][k] != [] {
          assert seps[1..][k] == seps[k + 1];
        }
      }
      WordsOfLayout(ws[1..], seps[1..]);
      if ws[1..] == [] {
        assert rest == seps[1];
      } else {
        assert rest == seps[1] + ws[1..][0] + Layout(ws[2..], seps[2..]) by {
          assert ws[1..][1..] == ws[2..] && seps[1..][1..] == seps[2..];
        }
        assert rest[0] == seps[1][0];
      }
      assert rest == [] || IsSpace(rest[0]);
      WordThenRest(ws[0], rest);
      assert seps[0] + ws[0] + rest == seps[0] + (ws[0] + rest);
      WordsAfterSpace(seps[0], ws[0] + rest);
      assert [ws[0]] + ws[1..] == ws;
    }
  }

  /**
   * Conversely every string is its own words laid out between whitespace separators, so
   * together with `WordsOfLayout` the words are the one such decomposition.
   */
  lemma {:induction false} WordsLayout(s: string) returns (seps: seq<string>)
    ensures Separators(Words(s), seps)
    ensures Layout(Words(s), seps) == s
    decreases |s|
  {
    if s == [] {
      seps := [[]];
    } else if IsSpace(s[0]) {
      var rest := WordsLayout(s[1..]);
      seps := [[s[0]] + rest[0]] + rest[1..];
      LayoutWiderFront(Words(s[1..]), rest, [s[0]]);
      assert [s[0]] + s[1..] == s;
      assert Separators(Words(s), seps) by {
        forall k | 0 < k < |seps| ensures seps[k] == rest[k] { }
        assert AllSpace(seps[0]) by {
          forall k | 0 <= k < |seps[0]| ensures IsSpace(seps[0][k]) {
            if k > 0 { assert seps[0][k] == rest[0][k - 1]; }
          }
        }
      }
    } else {
      var n := RunLength(s);
      var rest := WordsLayout(s[n..]);
      var ws := Words(s[n..]);
      assert Words(s) == [s[..n]] + ws;
      seps := [[]] + rest;
      assert ([s[..n]] + ws)[1..] == ws && seps[1..] == rest;
      assert Layout([s[..n]] + ws, seps) == [] + s[..n] + Layout(ws, rest);
      assert s[..n] + s[n..] == s;
      if ws != [] {
        assert Layout(ws, rest) == rest[0] + ws[0] + Layout(ws[1..], rest[1..]);
        assert IsSpace(s[n..][0]);
      }
    }
  }

  /** Widening the leading separator widens the layout at the front. */
  lemma LayoutWiderFront(ws: seq<string>, seps: seq<string>, sp: string)
    requires |seps| == |ws| + 1
    ensures Layout(ws, [sp + seps[0]] + seps[1..]) == sp + Layout(ws, seps)
  {
    var wider := [sp + seps[0]] + seps[1..];
    if ws != [] {
      assert wider[1..] == seps[1..];
    }
  }

  // ------------------------------------------------------------ integer text

  predicate IsDigit(c: char) { '0' <= c <= '9' }

  predicate AllDigits(s: string) { forall k :: 0 <= k < |s| ==> IsDigit(s[k]) }

  function Digit(d: nat): (c: char)
    requires d < 10
    ensures IsDigit(c)
  {
    ['0', '1', '2', '3', '4', '5', '6', '7', '8', '9'][d]
  }

  function DigitValue(c: char): nat
    requires IsDigit(c)
  {
    (c as int - '0' as int) as nat
  }

  /** The number a string of decimal digits denotes. */
  function DigitsValue(s: string): nat
    requires AllDigits(s)
  {
    if s == [] then 0 else DigitsValue(s[..|s| - 1]) * 10 + DigitValue(s[|s| - 1])
  }

  /** Decimal rendering of a natural number, as `Integer.toString` prints it. */
  function NatToString(n: nat): (r: string)
    ensures r != [] && AllDigits(r)
    ensures r[0] == '0' ==> r == "0"
  {
    if n < 10 then [Digit(n)] else NatToString(n / 10) + [Digit(n % 10)]
  }

  /** Reading the rendering back gives the number. */
  lemma {:induction false} NatToStringValue(n: nat)
    ensures DigitsValue(NatToString(n)) == n
  {
    var r := NatToString(n);
    if n >= 10 {
      NatToStringValue(n / 10);
      assert r[..|r| - 1] == NatToString(n / 10);
    }
    DigitValueOfDigit(n % 10);
  }

  lemma DigitValueOfDigit(d: nat)
    requires d < 10
    ensures DigitValue(Digit(d)) == d
  {
  }

  /** Decimal rendering of an integer, as Java's string concatenation prints an `int`. */
  function IntToString(i: int): (r: string)
    ensures i >= 0 ==> r == NatToString(i)
    ensures i < 0 ==> r == "-" + NatToString(-i)
  {
    if i < 0 then "-" + NatToString(-i) else NatToString(i)
  }

  // ------------------------------------------------------------ Java arithmetic

  /** Java's `/` on `int` by a positive divisor: rounds toward zero. */
  function JavaDiv(a: int, d: int): (q: int)
    requires d > 0
    ensures a >= 0 ==> 0 <= q * d <= a < q * d + d
    ensures a < 0 ==> q * d - d < a <= q * d <= 0
  {
    if a >= 0 then DivBounds(a, d); a / d
    else DivBounds(-a, d); -((-a) / d)
  }

  lemma DivBounds(a: int, d: int)
    requires a >= 0 && d > 0
    ensures 0 <= (a / d) * d <= a < (a / d) * d + d
  {
    var q, r := a / d, a % d;
    assert a == q * d + r;
    assert q >= 0;
    assert q * d >= 0;
  }

  /** Java's `%` on `int` by a positive divisor: the remainder takes the sign of `a`. */
  function JavaRem(a: int, d: int): (r: int)
    requires d > 0
    ensures JavaDiv(a, d) * d + r == a
    ensures a >= 0 ==> 0 <= r < d
    ensures a < 0 ==> -d < r <= 0
  {
    a - JavaDiv(a, d) * d
  }

  /** On non-negative operands Java's division and remainder agree with Dafny's. */
  lemma JavaMatchesEuclidean(a: int, d: int)
    requires a >= 0 && d > 0
    ensures JavaDiv(a, d) == a / d && JavaRem(a, d) == a % d
  {
  }

  const INT32_MIN: int := -0x8000_0000
  const INT32_MAX: int := 0x7fff_ffff

  predicate IsInt32(x: int) { INT32_MIN <= x <= INT32_MAX }

  /** Reduces an integer to Java's `int` range, as 32-bit two's complement arithmetic does. */
  function Wrap32(x: int): (r: int)
    ensures IsInt32(r)
    ensures (r - x) % 0x1_0000_0000 == 0
    ensures IsInt32(x) ==> r == x
  {
    (x - INT32_MIN) % 0x1_0000_0000 + INT32_MIN
  }
}
