/** The string operations the file-name parser is built from, with Python's
    semantics: `str.split(sep)`, `str.strip(chars)` for a single character,
    and `int(str)` on a decimal literal.
 */
module Text {
  import opened Outcomes

  /* ---------------------------------------------------------------- split */

  /** Python's `s.split(sep)`: the pieces between separators, empty pieces
      kept, so a string with k separators always yields k + 1 pieces. */
  function Split(s: string, sep: char): (pieces: seq<string>)
    ensures |pieces| == Occurrences(s, sep) + 1
    ensures forall i :: 0 <= i < |pieces| ==> sep !in pieces[i]
    decreases |s|
  {
    if |s| == 0 then [""]
    else
      var rest := Split(s[1..], sep);
      if s[0] == sep then [""] + rest
      else [[s[0]] + rest[0]] + rest[1..]
  }

  /** Number of times `c` occurs in `s`. */
  function Occurrences(s: string, c: char): nat
  {
    if |s| == 0 then 0
    else (if s[0] == c then 1 else 0) + Occurrences(s[1..], c)
  }

  /** Python's `sep.join(pieces)`, the inverse of `Split`. */
  function Join(pieces: seq<string>, sep: char): string
  {
    if |pieces| == 0 then ""
    else if |pieces| == 1 then pieces[0]
    else pieces[0] + [sep] + Join(pieces[1..], sep)
  }

  /** Joining the pieces of a split gives back the original string. */
  lemma {:induction false} JoinSplit(s: string, sep: char)
    ensures Join(Split(s, sep), sep) == s
    decreases |s|
  {
    if |s| > 0 {
      var rest := Split(s[1..], sep);
      JoinSplit(s[1..], sep);
      if s[0] == sep {
        assert Split(s, sep) == [""] + rest;
        assert s == "" + [sep] + Join(rest, sep);
      } else {
        var first := [s[0]] + rest[0];
        assert Split(s, sep) == [first] + rest[1..];
        if |rest| == 1 {
          assert Join(rest, sep) == rest[0];
        } else {
          assert Join(rest, sep) == rest[0] + [sep] + Join(rest[1..], sep);
          assert Join([first] + rest[1..], sep) == first + [sep] + Join(rest[1..], sep);
        }
      }
    }
  }

  /** A string with no separator in it splits into itself alone. */
  lemma {:induction false} SplitWithoutSeparator(t: string, sep: char)
    requires sep !in t
    ensures Split(t, sep) == [t]
    decreases |t|
  {
    if |t| > 0 {
      assert sep !in t[1..];
      SplitWithoutSeparator(t[1..], sep);
      assert [t[0]] + t[1..] == t;
    }
  }

  /** Splitting `t + sep + u`, where `t` has no separator, yields `t` first. */
  lemma {:induction false} SplitAfterPiece(t: string, u: string, sep: char)
    requires sep !in t
    ensures Split(t + [sep] + u, sep) == [t] + Split(u, sep)
    decreases |t|
  {
    var s := t + [sep] + u;
    if |t| == 0 {
      assert s[0] == sep && s[1..] == u;
    } else {
      assert sep !in t[1..];
      SplitAfterPiece(t[1..], u, sep);
      assert s[0] == t[0] && s[1..] == t[1..] + [sep] + u;
      assert [t[0]] + t[1..] == t;
    }
  }

  /** Splitting a join of separator-free pieces gives back the pieces. */
  lemma {:induction false} SplitJoin(pieces: seq<string>, sep: char)
    requires |pieces| >= 1
    requires forall i :: 0 <= i < |pieces| ==> sep !in pieces[i]
    ensures Split(Join(pieces, sep), sep) == pieces
    decreases |pieces|
  {
    if |pieces| == 1 {
      SplitWithoutSeparator(pieces[0], sep);
    } else {
      SplitJoin(pieces[1..], sep);
      SplitAfterPiece(pieces[0], Join(pieces[1..], sep), sep);
      assert [pieces[0]] + pieces[1..] == pieces;
    }
  }

  /* ---------------------------------------------------------------- strip */

  /** `n` copies of the character `c`. */
  function Repeat(c: char, n: nat): (s: string)
    ensures |s| == n
    ensures forall k :: 0 <= k < n ==> s[k] == c
  {
    if n == 0 then "" else [c] + Repeat(c, n - 1)
  }

  /** No character `c` at either end of `t` (vacuously true of ""). */
  predicate CleanEnds(t: string, c: char)
  {
    t == "" || (t[0] != c && t[|t| - 1] != c)
  }

  /** Length of the run of `c` at the start of `s`. */
  function LeadingRun(s: string, c: char): (n: nat)
    ensures n <= |s|
    ensures forall k :: 0 <= k < n ==> s[k] == c
    ensures n < |s| ==> s[n] != c
  {
    if |s| == 0 || s[0] != c then 0 else 1 + LeadingRun(s[1..], c)
  }

  /** Length of the run of `c` at the end of `s`. */
  function TrailingRun(s: string, c: char): (n: nat)
    ensures n <= |s|
    ensures forall k :: |s| - n <= k < |s| ==> s[k] == c
    ensures n < |s| ==> s[|s| - 1 - n] != c
  {
    if |s| == 0 || s[|s| - 1] != c then 0 else 1 + TrailingRun(s[..|s| - 1], c)
  }

  /** A string whose first `a` and last `b` characters are `c` is those two
      runs around its middle part. */
  lemma RunsAround(s: string, c: char, a: nat, b: nat)
    requires a + b <= |s|
    requires forall k :: 0 <= k < a ==> s[k] == c
    requires forall k :: |s| - b <= k < |s| ==> s[k] == c
    ensures s == Repeat(c, a) + s[a..|s| - b] + Repeat(c, b)
  {
    var r := Repeat(c, a) + s[a..|s| - b] + Repeat(c, b);
    assert forall k :: 0 <= k < |s| ==> r[k] == s[k];
  }

  /** Python's `s.strip(c)` for a one-character argument: what remains once
      every leading and trailing `c` is removed. The input is a run of `c`,
      the result, and another run of `c`, and the result neither starts nor
      ends with `c`. */
  function Strip(s: string, c: char): (t: string)
    ensures CleanEnds(t, c)
    ensures LeadingRun(s, c) + |t| <= |s|
    ensures s == Repeat(c, LeadingRun(s, c)) + t + Repeat(c, |s| - LeadingRun(s, c) - |t|)
  {
    var lead := LeadingRun(s, c);
    var trail := StrippedTail(s, c);
    RunsAround(s, c, lead, trail);
    s[lead..|s| - trail]
  }

  /** How many characters `Strip` removes from the end: none when the whole
      string is one run of `c` (the leading run took it all), otherwise the
      trailing run, which then cannot reach the leading one. */
  function StrippedTail(s: string, c: char): (trail: nat)
    ensures LeadingRun(s, c) + trail <= |s|
    ensures forall k :: |s| - trail <= k < |s| ==> s[k] == c
    ensures CleanEnds(s[LeadingRun(s, c)..|s| - trail], c)
  {
    var lead := LeadingRun(s, c);
    if lead == |s| then 0
    else
      assert s[lead] != c;
      TrailingRun(s, c)
  }

  /** The decomposition determines the result: whenever `s` is a run of `c`,
      then `t`, then a run of `c`, with `t` free of `c` at both ends,
      stripping `s` yields exactly `t`. */
  lemma StripUnique(s: string, c: char, t: string, a: nat, b: nat)
    requires CleanEnds(t, c)
    requires s == Repeat(c, a) + t + Repeat(c, b)
    ensures Strip(s, c) == t
  {
    assert forall k :: 0 <= k < a ==> s[k] == c;
    assert forall k :: a + |t| <= k < |s| ==> s[k] == c;
    var lead := LeadingRun(s, c);
    if t == "" {
      assert forall k :: 0 <= k < |s| ==> s[k] == c;
      assert lead == |s|;
    } else {
      assert s[a] == t[0] && s[a + |t| - 1] == t[|t| - 1];
      assert lead == a;
      var trail := TrailingRun(s, c);
      assert trail == b;
      assert s[a..|s| - b] == t;
    }
  }

  /* ------------------------------------------------------------- integers */

  predicate IsDigit(ch: char)
  {
    '0' <= ch <= '9'
  }

  predicate AllDigits(s: string)
  {
    forall k :: 0 <= k < |s| ==> IsDigit(s[k])
  }

  /** The integer syntax `int()` accepts here: an optional `+` or `-`
      followed by at least one decimal digit. */
  predicate IsIntegerLiteral(s: string)
  {
    if |s| > 0 && (s[0] == '+' || s[0] == '-') then |s| > 1 && AllDigits(s[1..])
    else |s| > 0 && AllDigits(s)
  }

  /** Value of a digit string read most significant digit first. */
  function DigitsValue(s: string): nat
    requires AllDigits(s)
  {
    if |s| == 0 then 0
    else DigitsValue(s[..|s| - 1]) * 10 + ((s[|s| - 1] as int) - ('0' as int))
  }

  /** Python's `int(s)` on a decimal literal; `None` where it raises. */
  function ParseInt(s: string): (r: Option<int>)
    ensures r.Some? <==> IsIntegerLiteral(s)
    ensures r.Some? && IsDigit(s[0]) ==> r.value >= 0
  {
    if !IsIntegerLiteral(s) then None
    else if s[0] == '-' then Some(0 - DigitsValue(s[1..]))
    else if s[0] == '+' then Some(DigitsValue(s[1..]))
    else Some(DigitsValue(s))
  }

  /** Leading zeros do not change the value `int()` reads. */
  lemma {:induction false} ParseLeadingZero(s: string)
    requires |s| > 0 && AllDigits(s)
    ensures ParseInt("0" + s) == ParseInt(s)
  {
    DigitsLeadingZero(s);
  }

  lemma {:induction false} DigitsLeadingZero(s: string)
    requires AllDigits(s)
    ensures AllDigits("0" + s) && DigitsValue("0" + s) == DigitsValue(s)
    decreases |s|
  {
    var z := "0" + s;
    assert AllDigits(z) by {
      assert forall k :: 1 <= k < |z| ==> z[k] == s[k - 1];
    }
    if |s| > 0 {
      assert z[..|z| - 1] == "0" + s[..|s| - 1];
      DigitsLeadingZero(s[..|s| - 1]);
    }
  }

  /** A sign in front of a digit string: `+` keeps the value, `-` negates
      it. */
  lemma ParseSign(s: string)
    requires |s| > 0 && AllDigits(s)
    ensures ParseInt("+" + s) == ParseInt(s)
    ensures ParseInt("-" + s) == Some(-ParseInt(s).value)
  {
    assert ("+" + s)[1..] == s && ("-" + s)[1..] == s;
  }

  /** The decimal digits of `n`, without leading zeros. */
  function ShowNat(n: nat): (s: string)
    ensures |s| > 0 && AllDigits(s)
  {
    var d := ['0' + (n % 10) as char];
    if n < 10 then d else ShowNat(n / 10) + d
  }

  /** Python's `str(n)`: digits, preceded by `-` for a negative number. */
  function ShowInt(n: int): string
  {
    if n < 0 then "-" + ShowNat(-n) else ShowNat(n)
  }

  lemma {:induction false} DigitsOfShowNat(n: nat)
    ensures DigitsValue(ShowNat(n)) == n
    decreases n
  {
    var s := ShowNat(n);
    if n >= 10 {
      DigitsOfShowNat(n / 10);
      assert s[..|s| - 1] == ShowNat(n / 10);
    }
  }

  /** `int(str(n)) == n`: parsing inverts printing. */
  lemma ParseShowInt(n: int)
    ensures ParseInt(ShowInt(n)) == Some(n)
  {
    if n < 0 {
      DigitsOfShowNat(-n);
      assert ShowInt(n)[1..] == ShowNat(-n);
    } else {
      DigitsOfShowNat(n);
    }
  }
}
