/**
  The Python string operations the analyzer relies on: `str.strip(c)`, `str.split(c)`,
  `sep.join(parts)`, `'{}'.format(n)` for a natural number, and a substring search
  (what pandas' `filter(regex=...)` does for a literal pattern).
*/
module Text {

  /** `s.lstrip(c)`: drop every leading `c`. */
  function LStrip(s: string, c: char): string
    decreases |s|
  {
    if |s| > 0 && s[0] == c then LStrip(s[1..], c) else s
  }

  /** `s.rstrip(c)`: drop every trailing `c`. */
  function RStrip(s: string, c: char): string
    decreases |s|
  {
    if |s| > 0 && s[|s| - 1] == c then RStrip(s[..|s| - 1], c) else s
  }

  /** `s.strip(c)`: drop every leading and every trailing `c`. */
  function Strip(s: string, c: char): string
  {
    RStrip(LStrip(s, c), c)
  }

  /** `lstrip` removes a run of `c` from the front and nothing else. */
  lemma {:induction false} LStripSpec(s: string, c: char)
    ensures var r := LStrip(s, c);
      && |r| <= |s| && r == s[|s| - |r|..]
      && (forall k :: 0 <= k < |s| - |r| ==> s[k] == c)
      && (r == [] || r[0] != c)
    decreases |s|
  {
    if |s| > 0 && s[0] == c {
      LStripSpec(s[1..], c);
    }
  }

  /** `rstrip` removes a run of `c` from the back and nothing else. */
  lemma {:induction false} RStripSpec(s: string, c: char)
    ensures var r := RStrip(s, c);
      && |r| <= |s| && r == s[..|r|]
      && (forall k :: |r| <= k < |s| ==> s[k] == c)
      && (r == [] || r[|r| - 1] != c)
    decreases |s|
  {
    if |s| > 0 && s[|s| - 1] == c {
      RStripSpec(s[..|s| - 1], c);
    }
  }

  /**
    `strip` leaves a middle part of `s` that neither starts nor ends with `c`; everything
    before and after it is `c`.
  */
  lemma StripSpec(s: string, c: char)
    ensures |LStrip(s, c)| <= |s|
    ensures var r := Strip(s, c);
      && (r == [] || (r[0] != c && r[|r| - 1] != c))
      && var i := |s| - |LStrip(s, c)|;
      && i + |r| <= |s| && r == s[i..i + |r|]
      && (forall k :: 0 <= k < i ==> s[k] == c)
      && (forall k :: i + |r| <= k < |s| ==> s[k] == c)
  {
    var l := LStrip(s, c);
    LStripSpec(s, c);
    RStripSpec(l, c);
    var r := RStrip(l, c);
    assert r == s[|s| - |l|..][..|r|] == s[|s| - |l|..|s| - |l| + |r|];
    if r != [] {
      assert r[0] == l[0];
    }
  }

  /** `sep.join(parts)`. */
  function Join(parts: seq<string>, sep: string): string
  {
    if |parts| == 0 then ""
    else if |parts| == 1 then parts[0]
    else parts[0] + sep + Join(parts[1..], sep)
  }

  /** `s.split(c)` for a one-character separator: never empty, keeps empty pieces. */
  function Split(s: string, c: char): (r: seq<string>)
    ensures |r| >= 1
    decreases |s|
  {
    if s == [] then [""]
    else
      var rest := Split(s[1..], c);
      if s[0] == c then [""] + rest
      else [[s[0]] + rest[0]] + rest[1..]
  }

  /** No piece of a split holds the separator. */
  lemma {:induction false} SplitPieces(s: string, c: char)
    ensures forall i :: 0 <= i < |Split(s, c)| ==> c !in Split(s, c)[i]
    decreases |s|
  {
    if s != [] {
      SplitPieces(s[1..], c);
    }
  }

  /** Joining the pieces of a split with the separator gives back the string. */
  lemma {:induction false} JoinSplit(s: string, c: char)
    ensures Join(Split(s, c), [c]) == s
    decreases |s|
  {
    if s != [] {
      var rest := Split(s[1..], c);
      JoinSplit(s[1..], c);
      if s[0] == c {
        assert Split(s, c) == [""] + rest;
        assert Join([""] + rest, [c]) == "" + [c] + Join(rest, [c]);
        assert s == [s[0]] + s[1..];
      } else {
        var p := Split(s, c);
        assert p == [[s[0]] + rest[0]] + rest[1..];
        if |rest| == 1 {
          assert Join(p, [c]) == [s[0]] + rest[0];
          assert Join(rest, [c]) == rest[0];
        } else {
          assert p[1..] == rest[1..];
          assert Join(p, [c]) == [s[0]] + rest[0] + [c] + Join(rest[1..], [c]);
          assert Join(rest, [c]) == rest[0] + [c] + Join(rest[1..], [c]);
        }
        assert s == [s[0]] + s[1..];
      }
    }
  }

  /** A string without the separator splits into itself alone. */
  lemma {:induction false} SplitWithoutSeparator(x: string, c: char)
    requires c !in x
    ensures Split(x, c) == [x]
    decreases |x|
  {
    if x != [] {
      SplitWithoutSeparator(x[1..], c);
      assert [x[0]] + x[1..] == x;
    }
  }

  /** Splitting `x + c + y` cuts at the first separator, which is the one after `x`. */
  lemma {:induction false} SplitAtFirst(x: string, c: char, y: string)
    requires c !in x
    ensures Split(x + [c] + y, c) == [x] + Split(y, c)
    decreases |x|
  {
    if x == [] {
      assert x + [c] + y == [c] + y;
      assert ([c] + y)[1..] == y;
    } else {
      var s := x + [c] + y;
      assert s[1..] == x[1..] + [c] + y;
      SplitAtFirst(x[1..], c, y);
      assert [x[0]] + x[1..] == x;
    }
  }

  /** The other round trip: pieces free of the separator are recovered by splitting their join. */
  lemma {:induction false} SplitJoin(parts: seq<string>, c: char)
    requires |parts| >= 1
    requires forall i :: 0 <= i < |parts| ==> c !in parts[i]
    ensures Split(Join(parts, [c]), c) == parts
    decreases |parts|
  {
    if |parts| == 1 {
      SplitWithoutSeparator(parts[0], c);
    } else {
      SplitJoin(parts[1..], c);
      SplitAtFirst(parts[0], c, Join(parts[1..], [c]));
      assert [parts[0]] + parts[1..] == parts;
    }
  }

  /** The first piece of a split is empty exactly when the string is empty or starts with the separator. */
  lemma SplitFirstEmpty(s: string, c: char)
    ensures Split(s, c)[0] == "" <==> (s == [] || s[0] == c)
  {
  }

  /** The last piece of a split is empty exactly when the string is empty or ends with the separator. */
  lemma {:induction false} SplitLastEmpty(s: string, c: char)
    ensures var p := Split(s, c); p[|p| - 1] == "" <==> (s == [] || s[|s| - 1] == c)
    decreases |s|
  {
    if s != [] {
      SplitLastEmpty(s[1..], c);
      var rest := Split(s[1..], c);
      if |s| == 1 {
        assert s[1..] == [];
      } else {
        assert s[1..][|s| - 2] == s[|s| - 1];
      }
    }
  }

  /** The decimal digit for `d < 10`. */
  function Digit(d: nat): char
    requires d < 10
  {
    "0123456789"[d]
  }

  /** `'{}'.format(n)` for a natural number: its decimal digits, most significant first. */
  function Decimal(n: nat): (r: string)
    ensures |r| >= 1
    ensures n < 10 <==> |r| == 1
  {
    if n < 10 then [Digit(n)] else Decimal(n / 10) + [Digit(n % 10)]
  }

  /** A decimal spelling holds digits only. */
  lemma {:induction false} DecimalDigits(n: nat)
    ensures forall i :: 0 <= i < |Decimal(n)| ==> '0' <= Decimal(n)[i] <= '9'
    decreases n
  {
    if n >= 10 {
      DecimalDigits(n / 10);
    }
  }

  /** Different numbers have different decimal spellings. */
  lemma {:induction false} DecimalInjective(a: nat, b: nat)
    requires Decimal(a) == Decimal(b)
    ensures a == b
    decreases a
  {
    if a >= 10 && b >= 10 {
      var da, db := Decimal(a), Decimal(b);
      assert da[..|da| - 1] == Decimal(a / 10);
      assert db[..|db| - 1] == Decimal(b / 10);
      DecimalInjective(a / 10, b / 10);
      assert Digit(a % 10) == da[|da| - 1] == db[|db| - 1] == Digit(b % 10);
    }
  }

  /** `t` occurs in `s` starting at some position (a search with a literal pattern). */
  predicate Contains(s: string, t: string)
    decreases |s|
  {
    (|t| <= |s| && s[..|t|] == t) || (|s| > 0 && Contains(s[1..], t))
  }

  /** A pattern whose first character does not occur in `s` is not found in `s`. */
  lemma {:induction false} NotContainsFirstChar(s: string, t: string)
    requires |t| > 0 && t[0] !in s
    ensures !Contains(s, t)
    decreases |s|
  {
    if |t| <= |s| {
      assert s[..|t|][0] == s[0];
    }
    if |s| > 0 {
      NotContainsFirstChar(s[1..], t);
    }
  }

  /** A pattern longer than `s` is not found in `s`. */
  lemma {:induction false} NotContainsLonger(s: string, t: string)
    requires |s| < |t|
    ensures !Contains(s, t)
    decreases |s|
  {
    if |s| > 0 {
      NotContainsLonger(s[1..], t);
    }
  }

  /** The value of a hexadecimal digit. */
  function HexValue(c: char): (r: int)
    ensures -1 <= r < 16
  {
    if '0' <= c <= '9' then c as int - '0' as int
    else if 'a' <= c <= 'f' then c as int - 'a' as int + 10
    else if 'A' <= c <= 'F' then c as int - 'A' as int + 10
    else -1
  }

  /** `%XX` at the front of `s`, for an ASCII character: its code, else -1. */
  function EscapeAt(s: string): int
  {
    if |s| >= 3 && s[0] == '%' && HexValue(s[1]) >= 0 && HexValue(s[2]) >= 0
       && 16 * HexValue(s[1]) + HexValue(s[2]) < 128
    then 16 * HexValue(s[1]) + HexValue(s[2])
    else -1
  }

  /** `unquote(s)`: every `%XX` escape of an ASCII character replaced by that character. */
  function Unquote(s: string): string
    decreases |s|
  {
    if s == [] then []
    else if EscapeAt(s) >= 0 then [EscapeAt(s) as char] + Unquote(s[3..])
    else [s[0]] + Unquote(s[1..])
  }

  /** Text before the first `%` is left as it is. */
  lemma {:induction false} UnquotePlainPrefix(x: string, y: string)
    requires '%' !in x
    ensures Unquote(x + y) == x + Unquote(y)
    decreases |x|
  {
    if x != [] {
      assert (x + y)[0] == x[0] && x[0] in x;
      assert (x + y)[1..] == x[1..] + y;
      UnquotePlainPrefix(x[1..], y);
      assert x == [x[0]] + x[1..];
      assert EscapeAt(x + y) < 0;
      assert Unquote(x + y) == [x[0]] + Unquote(x[1..] + y);
    } else {
      assert x + y == y;
    }
  }

  /** A string without `%` decodes to itself. */
  lemma UnquotePlain(s: string)
    requires '%' !in s
    ensures Unquote(s) == s
  {
    UnquotePlainPrefix(s, []);
    assert s + [] == s;
  }

  /** Decoding never lengthens a string, and shortens it exactly when it holds an escape. */
  lemma {:induction false} UnquoteShortens(s: string)
    ensures |Unquote(s)| <= |s|
    ensures |Unquote(s)| == |s| <==> forall i :: 0 <= i <= |s| ==> EscapeAt(s[i..]) < 0
    decreases |s|
  {
    if s != [] {
      if EscapeAt(s) >= 0 {
        UnquoteShortens(s[3..]);
        assert s[0..] == s;
      } else {
        UnquoteShortens(s[1..]);
        forall i | 1 <= i <= |s| ensures s[i..] == s[1..][i - 1..] {
        }
        if forall i :: 0 <= i <= |s[1..]| ==> EscapeAt(s[1..][i..]) < 0 {
          forall i | 0 <= i <= |s| ensures EscapeAt(s[i..]) < 0 {
            if i > 0 {
              assert s[i..] == s[1..][i - 1..];
            }
          }
        } else {
          var i :| 0 <= i <= |s[1..]| && EscapeAt(s[1..][i..]) >= 0;
          assert s[i + 1..] == s[1..][i..];
        }
      }
    } else {
      assert EscapeAt(s[0..]) < 0;
    }
  }
}
