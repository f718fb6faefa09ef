/**
  The string operations the pipeline relies on, with Python's semantics:
  `str.isspace`, `str.strip()`, `''.join`, `sep.join`, `str.split(sep)`, and
  fixed-width zero-padded decimal numerals (as printed by `strftime`).
 */
module Text {

  /** The characters for which Python's `str.isspace()` holds. */
  const SpaceChars: set<char> := {
    ' ', '\t', '\n', '\r', '\U{000B}', '\U{000C}',
    '\U{001C}', '\U{001D}', '\U{001E}', '\U{001F}',
    '\U{0085}', '\U{00A0}', '\U{1680}',
    '\U{2000}', '\U{2001}', '\U{2002}', '\U{2003}', '\U{2004}', '\U{2005}',
    '\U{2006}', '\U{2007}', '\U{2008}', '\U{2009}', '\U{200A}',
    '\U{2028}', '\U{2029}', '\U{202F}', '\U{205F}', '\U{3000}'
  }

  /** Python's `str.isspace()` for one character. */
  predicate IsSpace(c: char) {
    c in SpaceChars
  }

  predicate AllSpace(s: string) {
    forall i :: 0 <= i < |s| ==> IsSpace(s[i])
  }

  /** The number of whitespace characters `s` starts with. */
  function Leading(s: string): (n: nat)
    ensures n <= |s|
  {
    if |s| > 0 && IsSpace(s[0]) then 1 + Leading(s[1..]) else 0
  }

  /** The number of whitespace characters `s` ends with. */
  function Trailing(s: string): (n: nat)
    ensures n <= |s|
  {
    if |s| > 0 && IsSpace(s[|s| - 1]) then 1 + Trailing(s[..|s| - 1]) else 0
  }

  /** `Leading` counts exactly the whitespace run at the front. */
  lemma {:induction false} LeadingRun(s: string)
    ensures forall i :: 0 <= i < Leading(s) ==> IsSpace(s[i])
    ensures Leading(s) < |s| ==> !IsSpace(s[Leading(s)])
  {
    if |s| > 0 && IsSpace(s[0]) {
      LeadingRun(s[1..]);
      assert forall i :: 0 < i < Leading(s) ==> s[i] == s[1..][i - 1];
    }
  }

  /** `Trailing` counts exactly the whitespace run at the back. */
  lemma {:induction false} TrailingRun(s: string)
    ensures forall i :: |s| - Trailing(s) <= i < |s| ==> IsSpace(s[i])
    ensures Trailing(s) < |s| ==> !IsSpace(s[|s| - 1 - Trailing(s)])
  {
    if |s| > 0 && IsSpace(s[|s| - 1]) {
      TrailingRun(s[..|s| - 1]);
      assert forall i :: |s| - Trailing(s) <= i < |s| - 1 ==> s[i] == s[..|s| - 1][i];
    }
  }

  /**
    `s.strip()`: `s` without leading and trailing whitespace, that is, the
    leading run removed (`lstrip`) and then the trailing run of the rest
    removed (`rstrip`).
   */
  function Strip(s: string): string
  {
    var a := Leading(s);
    s[a..|s| - Trailing(s[a..])]
  }

  /**
    What `strip` means: the result is a contiguous piece of `s`, everything cut
    away on either side is whitespace, and the result neither starts nor ends
    with whitespace.
   */
  lemma StripIsTrimmedInfix(s: string)
    ensures exists a :: 0 <= a <= |s| - |Strip(s)|
                        && Strip(s) == s[a..a + |Strip(s)|]
                        && AllSpace(s[..a]) && AllSpace(s[a + |Strip(s)|..])
    ensures |Strip(s)| > 0 ==> !IsSpace(Strip(s)[0]) && !IsSpace(Strip(s)[|Strip(s)| - 1])
  {
    var a := Leading(s);
    var t := s[a..];
    var b := Trailing(t);
    var r := Strip(s);
    LeadingRun(s);
    TrailingRun(t);
    assert |r| == |s| - a - b;
    assert AllSpace(s[..a]) by {
      assert forall i :: 0 <= i < a ==> s[..a][i] == s[i];
    }
    assert AllSpace(s[a + |r|..]) by {
      var cut := s[a + |r|..];
      forall i | 0 <= i < |cut|
        ensures IsSpace(cut[i])
      {
        assert cut[i] == t[|t| - b + i];
      }
    }
    if |r| > 0 {
      assert r[0] == s[a];
      assert r[|r| - 1] == t[|t| - 1 - b];
    }
  }

  /** A string strips to the empty string exactly when it is all whitespace. */
  lemma StripAllSpace(s: string)
    ensures AllSpace(s) <==> Strip(s) == ""
  {
    var a := Leading(s);
    var t := s[a..];
    var b := Trailing(t);
    LeadingRun(s);
    TrailingRun(t);
    if Strip(s) == "" && a < |s| {
      assert false;
    }
  }

  /** `''.join(parts)`: the parts concatenated in order with no separator. */
  function Concat(parts: seq<string>): (r: string)
    ensures |parts| == 0 ==> r == ""
  {
    if |parts| == 0 then "" else Concat(parts[..|parts| - 1]) + parts[|parts| - 1]
  }

  /** Concatenation distributes over sequence append. */
  lemma {:induction false} ConcatAppend(a: seq<string>, b: seq<string>)
    ensures Concat(a + b) == Concat(a) + Concat(b)
    decreases |b|
  {
    if |b| == 0 {
      assert a + b == a;
    } else {
      var front := b[..|b| - 1];
      var last := b[|b| - 1];
      ConcatAppend(a, front);
      assert (a + b)[..|a + b| - 1] == a + front;
      assert (a + b)[|a + b| - 1] == last;
      assert Concat(a + b) == Concat(a + front) + last;
      assert Concat(b) == Concat(front) + last;
    }
  }

  /** The number of times `c` occurs in `s`. */
  function Count(s: string, c: char): nat
  {
    if |s| == 0 then 0 else (if s[0] == c then 1 else 0) + Count(s[1..], c)
  }

  lemma {:induction false} CountAppend(a: string, b: string, c: char)
    ensures Count(a + b, c) == Count(a, c) + Count(b, c)
  {
    if |a| == 0 {
      assert a + b == b;
    } else {
      CountAppend(a[1..], b, c);
      assert (a + b)[1..] == a[1..] + b;
    }
  }

  /** `c` occurs in `s` exactly when it is counted. */
  lemma {:induction false} CountPositive(s: string, c: char)
    ensures c in s <==> Count(s, c) > 0
  {
    if |s| > 0 {
      CountPositive(s[1..], c);
      assert s == [s[0]] + s[1..];
    }
  }

  /** `sep.join(fields)`. */
  function Join(fields: seq<string>, sep: char): string
  {
    if |fields| == 0 then ""
    else if |fields| == 1 then fields[0]
    else fields[0] + [sep] + Join(fields[1..], sep)
  }

  /** Joining a head field in front of at least one more. */
  lemma JoinCons(a: string, rest: seq<string>, sep: char)
    requires |rest| >= 1
    ensures Join([a] + rest, sep) == a + [sep] + Join(rest, sep)
  {
    assert ([a] + rest)[1..] == rest;
  }

  /** A character other than the separator occurs in a join only if it occurs in a field. */
  lemma {:induction false} JoinWithout(fields: seq<string>, sep: char, c: char)
    requires c != sep
    requires forall i :: 0 <= i < |fields| ==> c !in fields[i]
    ensures c !in Join(fields, sep)
  {
    if |fields| > 1 {
      JoinWithout(fields[1..], sep, c);
      assert c !in fields[0];
    }
  }

  /** `s.split(sep)`: the pieces between occurrences of `sep`, always at least one. */
  function Split(s: string, sep: char): (r: seq<string>)
    ensures |r| >= 1
  {
    if |s| == 0 then [""]
    else
      var rest := Split(s[1..], sep);
      if s[0] == sep then [""] + rest else [[s[0]] + rest[0]] + rest[1..]
  }

  /** Splitting yields one more piece than there are separators. */
  lemma {:induction false} SplitCount(s: string, sep: char)
    ensures |Split(s, sep)| == Count(s, sep) + 1
  {
    if |s| > 0 {
      SplitCount(s[1..], sep);
    }
  }

  /** A piece free of the separator splits to itself. */
  lemma {:induction false} SplitPlain(a: string, sep: char)
    requires sep !in a
    ensures Split(a, sep) == [a]
  {
    if |a| > 0 {
      SplitPlain(a[1..], sep);
      assert [a[0]] + a[1..] == a;
    }
  }

  /** A separator-free head followed by the separator splits off as one piece. */
  lemma {:induction false} SplitHead(a: string, sep: char, rest: string)
    requires sep !in a
    ensures Split(a + [sep] + rest, sep) == [a] + Split(rest, sep)
  {
    if |a| == 0 {
      assert a + [sep] + rest == [sep] + rest;
      assert ([sep] + rest)[1..] == rest;
    } else {
      SplitHead(a[1..], sep, rest);
      assert (a + [sep] + rest)[1..] == a[1..] + [sep] + rest;
      assert [a[0]] + a[1..] == a;
    }
  }

  /** `split` undoes `join` when no field contains the separator. */
  lemma {:induction false} SplitJoin(fields: seq<string>, sep: char)
    requires |fields| >= 1
    requires forall i :: 0 <= i < |fields| ==> sep !in fields[i]
    ensures Split(Join(fields, sep), sep) == fields
  {
    if |fields| == 1 {
      SplitPlain(fields[0], sep);
    } else {
      SplitJoin(fields[1..], sep);
      SplitHead(fields[0], sep, Join(fields[1..], sep));
      assert [fields[0]] + fields[1..] == fields;
    }
  }

  /** A joined string holds the fields' own separators plus one between each pair. */
  lemma {:induction false} JoinCount(fields: seq<string>, sep: char)
    requires |fields| >= 1
    ensures Count(Join(fields, sep), sep) == |fields| - 1 + CountAll(fields, sep)
  {
    if |fields| > 1 {
      JoinCount(fields[1..], sep);
      CountAppend(fields[0] + [sep], Join(fields[1..], sep), sep);
      CountAppend(fields[0], [sep], sep);
      assert Count([sep], sep) == 1;
    }
  }

  /** The total number of occurrences of `c` over all fields. */
  function CountAll(fields: seq<string>, c: char): nat
  {
    if |fields| == 0 then 0 else Count(fields[0], c) + CountAll(fields[1..], c)
  }

  lemma {:induction false} CountAllPositive(fields: seq<string>, c: char)
    ensures (exists i :: 0 <= i < |fields| && c in fields[i]) <==> CountAll(fields, c) > 0
  {
    if |fields| > 0 {
      CountAllPositive(fields[1..], c);
      CountPositive(fields[0], c);
      if c in fields[0] {
        assert 0 <= 0 < |fields| && c in fields[0];
      }
      if exists i :: 0 <= i < |fields| && c in fields[i] {
        var i :| 0 <= i < |fields| && c in fields[i];
        if i > 0 {
          assert c in fields[1..][i - 1];
        }
      }
      if exists i :: 0 <= i < |fields[1..]| && c in fields[1..][i] {
        var i :| 0 <= i < |fields[1..]| && c in fields[1..][i];
        assert c in fields[i + 1];
      }
    }
  }

  /** The splitting of a join has exactly as many pieces as fields iff no field holds the separator. */
  lemma SplitJoinFieldCount(fields: seq<string>, sep: char)
    requires |fields| >= 1
    ensures |Split(Join(fields, sep), sep)| == |fields|
            <==> forall i :: 0 <= i < |fields| ==> sep !in fields[i]
    ensures (exists i :: 0 <= i < |fields| && sep in fields[i])
            ==> |Split(Join(fields, sep), sep)| > |fields|
  {
    SplitCount(Join(fields, sep), sep);
    JoinCount(fields, sep);
    CountAllPositive(fields, sep);
  }

  /** Each line followed by the terminator `sep`. */
  function Terminated(lines: seq<string>, sep: char): (r: seq<string>)
    ensures |r| == |lines| && forall i :: 0 <= i < |r| ==> r[i] == lines[i] + [sep]
  {
    seq(|lines|, i requires 0 <= i < |lines| => lines[i] + [sep])
  }

  /** Terminating a list with a head line terminates the head, then the rest. */
  lemma TerminatedCons(lines: seq<string>, sep: char)
    requires |lines| > 0
    ensures Terminated(lines, sep) == [lines[0] + [sep]] + Terminated(lines[1..], sep)
  {
  }

  /** Concatenating a head element in front. */
  lemma ConcatCons(a: string, rest: seq<string>)
    ensures Concat([a] + rest) == a + Concat(rest)
  {
    ConcatAppend([a], rest);
    assert [a][..0] == [];
  }

  /**
    Terminated lines written one after another split back into the lines,
    followed by the empty piece after the last terminator.
   */
  lemma {:induction false} SplitTerminated(lines: seq<string>, sep: char)
    requires forall i :: 0 <= i < |lines| ==> sep !in lines[i]
    ensures Split(Concat(Terminated(lines, sep)), sep) == lines + [""]
  {
    if |lines| > 0 {
      var tail := lines[1..];
      SplitTerminatedStep(lines, sep);
      assert forall i :: 0 <= i < |tail| ==> tail[i] == lines[i + 1];
      SplitTerminated(tail, sep);
      assert lines + [""] == [lines[0]] + (tail + [""]);
    }
  }

  /** The first terminated line splits off as the first piece. */
  lemma SplitTerminatedStep(lines: seq<string>, sep: char)
    requires |lines| > 0 && sep !in lines[0]
    ensures Split(Concat(Terminated(lines, sep)), sep)
            == [lines[0]] + Split(Concat(Terminated(lines[1..], sep)), sep)
  {
    var rest := Concat(Terminated(lines[1..], sep));
    TerminatedCons(lines, sep);
    ConcatCons(lines[0] + [sep], Terminated(lines[1..], sep));
    SplitHead(lines[0], sep, rest);
  }

  // ---------------------------------------------------------------------------
  // Zero-padded decimal numerals

  function Pow10(k: nat): (r: nat)
    ensures r >= 1
  {
    if k == 0 then 1 else 10 * Pow10(k - 1)
  }

  predicate IsDigit(c: char) {
    '0' <= c <= '9'
  }

  function DigitChar(d: nat): (c: char)
    requires d < 10
    ensures IsDigit(c)
  {
    ['0', '1', '2', '3', '4', '5', '6', '7', '8', '9'][d]
  }

  function DigitValue(c: char): nat
    requires IsDigit(c)
  {
    (c as int - '0' as int) as nat
  }

  /** The last `k` decimal digits of `n`, zero-padded on the left (`%0kd`). */
  function Digits(n: nat, k: nat): (r: string)
    ensures |r| == k
    ensures forall i :: 0 <= i < k ==> IsDigit(r[i])
  {
    if k == 0 then "" else Digits(n / 10, k - 1) + [DigitChar(n % 10)]
  }

  /** The value of a string of decimal digits. */
  function Value(s: string): nat
    requires forall i :: 0 <= i < |s| ==> IsDigit(s[i])
  {
    if |s| == 0 then 0 else 10 * Value(s[..|s| - 1]) + DigitValue(s[|s| - 1])
  }

  /** Reading back a padded numeral gives the number, as long as it fits in `k` digits. */
  lemma {:induction false} ValueDigits(n: nat, k: nat)
    requires n < Pow10(k)
    ensures Value(Digits(n, k)) == n
  {
    if k > 0 {
      ValueDigits(n / 10, k - 1);
      var d := Digits(n, k);
      assert d[..k - 1] == Digits(n / 10, k - 1);
      assert DigitValue(DigitChar(n % 10)) == n % 10 by {
        var m := n % 10;
        assert m == 0 || m == 1 || m == 2 || m == 3 || m == 4 || m == 5 || m == 6 || m == 7 || m == 8 || m == 9;
      }
    }
  }
}
