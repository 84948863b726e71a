/** The three Python string operations the loaders rely on:
    `str.strip()`, `str.split(sep)` with an explicit separator, and `int(str)`. */
module PyText {
  import opened Types

  /** The characters for which Python's `str.isspace()` holds: the ASCII whitespace
      and separator controls U+0009..U+000D and U+001C..U+001F, the space, U+0085, U+00A0,
      U+1680, U+2000..U+200A, U+2028, U+2029, U+202F, U+205F and U+3000. */
  const SpaceChars: set<char> := {
    '\t', '\n', '\U{0B}', '\U{0C}', '\r', '\U{1C}', '\U{1D}', '\U{1E}', '\U{1F}', ' ',
    '\U{85}', '\U{A0}', '\U{1680}',
    '\U{2000}', '\U{2001}', '\U{2002}', '\U{2003}', '\U{2004}', '\U{2005}',
    '\U{2006}', '\U{2007}', '\U{2008}', '\U{2009}', '\U{200A}',
    '\U{2028}', '\U{2029}', '\U{202F}', '\U{205F}', '\U{3000}'
  }

  /** The whitespace `int()` skips around the digits: every `isspace()` character except
      the separators U+001C..U+001F. Below U+0080 these are space, tab, newline, vertical
      tab, form feed and carriage return. */
  const IntSpaceChars: set<char> := SpaceChars - {'\U{1C}', '\U{1D}', '\U{1E}', '\U{1F}'}

  predicate IsSpace(c: char)
  {
    c in SpaceChars
  }

  predicate AllIn(s: string, ws: set<char>)
  {
    forall i :: 0 <= i < |s| ==> s[i] in ws
  }

  predicate AllSpace(s: string)
  {
    AllIn(s, SpaceChars)
  }

  /** The first index at or after `i` that does not hold a character of `ws` (`|s|` if none). */
  function SkipSpace(s: string, i: nat, ws: set<char>): (r: nat)
    requires i <= |s|
    ensures i <= r <= |s|
    ensures forall k :: i <= k < r ==> s[k] in ws
    ensures r < |s| ==> s[r] !in ws
    decreases |s| - i
  {
    if i < |s| && s[i] in ws then SkipSpace(s, i + 1, ws) else i
  }

  /** Walking back from `j`, but not below `lo`, past characters of `ws`: the end of the
      last character in `s[lo..j]` outside `ws` (`lo` if none). */
  function SkipSpaceBack(s: string, lo: nat, j: nat, ws: set<char>): (r: nat)
    requires lo <= j <= |s|
    ensures lo <= r <= j
    ensures forall k :: r <= k < j ==> s[k] in ws
    ensures r > lo ==> s[r - 1] !in ws
    decreases j
  {
    if j > lo && s[j - 1] in ws then SkipSpaceBack(s, lo, j - 1, ws) else j
  }

  /** `s.strip(chars)`: the characters of `ws` removed from both ends. */
  function StripChars(s: string, ws: set<char>): string
  {
    var i := SkipSpace(s, 0, ws);
    s[i..SkipSpaceBack(s, i, |s|, ws)]
  }

  /** `s.strip()`: whitespace removed from both ends. */
  function Strip(s: string): string
  {
    StripChars(s, SpaceChars)
  }

  /** The stripped string is the infix of `s` left once characters of `ws` are cut from
      both ends, and it neither starts nor ends with one of them. */
  lemma StripInfix(s: string, ws: set<char>)
    ensures exists i, j :: 0 <= i <= j <= |s| && StripChars(s, ws) == s[i..j] && AllIn(s[..i], ws) && AllIn(s[j..], ws)
    ensures var r := StripChars(s, ws); r != [] ==> r[0] !in ws && r[|r| - 1] !in ws
  {
    var i := SkipSpace(s, 0, ws);
    var j := SkipSpaceBack(s, i, |s|, ws);
    AllInSlice(s, 0, i, ws);
    AllInSlice(s, j, |s|, ws);
    assert s[0..i] == s[..i] && s[j..|s|] == s[j..];
    var r := StripChars(s, ws);
    assert r == s[i..j] && AllIn(s[..i], ws) && AllIn(s[j..], ws);
    if i < j {
      assert r[0] == s[i] && r[|r| - 1] == s[j - 1];
    }
  }

  lemma AllInSlice(s: string, lo: nat, hi: nat, ws: set<char>)
    requires lo <= hi <= |s| && forall k :: lo <= k < hi ==> s[k] in ws
    ensures AllIn(s[lo..hi], ws)
  {
    assert forall k :: 0 <= k < hi - lo ==> s[lo..hi][k] == s[lo + k];
  }

  /** Stripping a string that neither starts nor ends with a character of `ws`, once
      such characters have been put around it, gives that string back. */
  lemma StripFramed(pre: string, s: string, post: string, ws: set<char>)
    requires AllIn(pre, ws) && AllIn(post, ws)
    requires s != [] && s[0] !in ws && s[|s| - 1] !in ws
    ensures StripChars(pre + s + post, ws) == s
  {
    var x := pre + s + post;
    var i, j := |pre|, |pre| + |s|;
    assert forall k :: 0 <= k < i ==> x[k] == pre[k];
    assert forall k :: j <= k < |x| ==> x[k] == post[k - j];
    assert x[i] == s[0] && x[j - 1] == s[|s| - 1];
    assert SkipSpace(x, 0, ws) == i by {
      assert forall k :: 0 <= k < i ==> x[k] in ws;
      assert x[i] !in ws;
    }
    assert SkipSpaceBack(x, i, |x|, ws) == j by {
      assert forall k :: j <= k < |x| ==> x[k] in ws;
      assert x[j - 1] !in ws;
    }
    assert x[i..j] == s;
  }

  /** The inverse of splitting: the fields put back together around `sep`. */
  function Join(fields: seq<string>, sep: char): string
    requires |fields| >= 1
    decreases |fields|
  {
    if |fields| == 1 then fields[0] else fields[0] + [sep] + Join(fields[1..], sep)
  }

  /** `s.split(sep)`: the text between consecutive separators, always at least one field
      (so the empty string gives one empty field). */
  function Split(s: string, sep: char): (r: seq<string>)
    ensures |r| >= 1
    ensures forall i :: 0 <= i < |r| ==> sep !in r[i]
    ensures Join(r, sep) == s
    decreases |s|
  {
    if s == [] then [[]]
    else
      var rest := Split(s[1..], sep);
      if s[0] == sep then
        assert ([[]] + rest)[1..] == rest;
        [[]] + rest
      else
        var r := [[s[0]] + rest[0]] + rest[1..];
        assert |rest| > 1 ==> r[1..] == rest[1..] && Join(rest, sep) == rest[0] + [sep] + Join(rest[1..], sep);
        assert Join(r, sep) == [s[0]] + Join(rest, sep);
        r
  }

  lemma {:induction false} SplitFront(a: string, b: string, sep: char)
    requires sep !in a
    ensures Split(a + [sep] + b, sep) == [a] + Split(b, sep)
    decreases |a|
  {
    if a == [] {
      assert a + [sep] + b == [sep] + b;
      assert ([sep] + b)[1..] == b;
    } else {
      assert (a + [sep] + b)[1..] == a[1..] + [sep] + b;
      SplitFront(a[1..], b, sep);
      assert [a[0]] + a[1..] == a;
    }
  }

  lemma {:induction false} SplitWhole(a: string, sep: char)
    requires sep !in a
    ensures Split(a, sep) == [a]
    decreases |a|
  {
    if a != [] {
      SplitWhole(a[1..], sep);
      assert [a[0]] + a[1..] == a;
    }
  }

  /** Splitting undoes joining when no field contains the separator. */
  lemma {:induction false} SplitJoin(fields: seq<string>, sep: char)
    requires |fields| >= 1
    requires forall i :: 0 <= i < |fields| ==> sep !in fields[i]
    ensures Split(Join(fields, sep), sep) == fields
    decreases |fields|
  {
    if |fields| == 1 {
      SplitWhole(fields[0], sep);
    } else {
      SplitJoin(fields[1..], sep);
      SplitFront(fields[0], Join(fields[1..], sep), sep);
      assert [fields[0]] + fields[1..] == fields;
    }
  }

  predicate IsDigit(c: char)
  {
    '0' <= c <= '9'
  }

  /** ASCII decimal digits, with single underscores allowed between two digits. */
  predicate IsDigitRun(s: string)
  {
    && s != [] && IsDigit(s[0])
    && forall i {:trigger s[i]} :: 0 <= i < |s| ==> IsDigit(s[i]) || (s[i] == '_' && i + 1 < |s| && IsDigit(s[i + 1]))
  }

  /** The decimal value of a digit run, underscores ignored. */
  function DigitsValue(s: string): nat
    decreases |s|
  {
    if s == [] then 0
    else if s[|s| - 1] == '_' then DigitsValue(s[..|s| - 1])
    else DigitsValue(s[..|s| - 1]) * 10 + DigitValue(s[|s| - 1])
  }

  function DigitValue(c: char): nat
  {
    if IsDigit(c) then c as int - '0' as int else 0
  }

  /** `int(s)` for base 10: surrounding whitespace is ignored, then one optional sign
      and a digit run; anything else is rejected. Non-ASCII whitespace is skipped like a
      space, but U+001C..U+001F are not, although `isspace()` holds for them. So a string
      `int()` accepts holds nothing but that whitespace, signs, underscores and digits. */
  function ParseInt(s: string): (r: Option<int>)
    ensures r.Some? ==> forall k :: 0 <= k < |s| ==> s[k] in IntSpaceChars || IsNumeral(s[k])
  {
    var i := SkipSpace(s, 0, IntSpaceChars);
    var j := SkipSpaceBack(s, i, |s|, IntSpaceChars);
    assert forall k :: i <= k < j ==> s[i..j][k - i] == s[k];
    ParseSigned(StripChars(s, IntSpaceChars))
  }

  predicate IsNumeral(c: char)
  {
    c == '+' || c == '-' || c == '_' || IsDigit(c)
  }

  function ParseSigned(t: string): (r: Option<int>)
    ensures r.Some? ==> forall k :: 0 <= k < |t| ==> IsNumeral(t[k])
  {
    assert forall k :: 1 <= k < |t| ==> t[1..][k - 1] == t[k];
    if t != [] && (t[0] == '-' || t[0] == '+') then
      var v: int := DigitsValue(t[1..]);
      if IsDigitRun(t[1..]) then Some(if t[0] == '-' then -v else v)
      else None
    else if IsDigitRun(t) then Some(DigitsValue(t))
    else None
  }

  /** The usual decimal spelling of a natural number. */
  function ShowNat(n: nat): (r: string)
    ensures r != [] && forall i :: 0 <= i < |r| ==> IsDigit(r[i])
  {
    if n < 10 then [('0' as int + n) as char]
    else ShowNat(n / 10) + [('0' as int + n % 10) as char]
  }

  /** The spelling Python's `str(n)` gives an integer. */
  function Show(n: int): string
  {
    if n < 0 then "-" + ShowNat(-n) else ShowNat(n)
  }

  lemma {:induction false} DigitsValueShowNat(n: nat)
    ensures DigitsValue(ShowNat(n)) == n
    decreases n
  {
    if n >= 10 {
      var s := ShowNat(n);
      assert s[..|s| - 1] == ShowNat(n / 10);
      DigitsValueShowNat(n / 10);
    }
  }

  lemma ShowNatIsDigitRun(n: nat)
    ensures IsDigitRun(ShowNat(n))
  {
  }

  lemma ParseSignedShow(n: int)
    ensures ParseSigned(Show(n)) == Some(n)
  {
    var m := if n < 0 then -n else n;
    ShowNatIsDigitRun(m);
    DigitsValueShowNat(m);
    if n < 0 {
      assert Show(n)[1..] == ShowNat(m);
    }
  }

  /** `int(str(n)) == n`, also with whitespace other than U+001C..U+001F around the spelling. */
  lemma ParseShow(pre: string, n: int, post: string)
    requires AllIn(pre, IntSpaceChars) && AllIn(post, IntSpaceChars)
    ensures ParseInt(pre + Show(n) + post) == Some(n)
  {
    var s := Show(n);
    var digits := ShowNat(if n < 0 then -n else n);
    assert s[0] !in IntSpaceChars by { assert s[0] == '-' || s[0] == digits[0]; }
    assert s[|s| - 1] !in IntSpaceChars by { assert s[|s| - 1] == digits[|digits| - 1]; }
    StripFramed(pre, s, post, IntSpaceChars);
    ParseSignedShow(n);
  }

  /** `int()` never skips U+001C, with or without non-ASCII characters in the string, but
      it does skip a non-ASCII space such as U+00A0. */
  lemma IntSpacingExample()
    ensures ParseInt("5\U{1C}") == None
    ensures ParseInt("\U{A0}5\U{1C}") == None
    ensures ParseInt("5\U{1C}\U{A0}") == None
    ensures ParseInt("\U{A0}5\U{A0}") == Some(5)
  {
    var a := "\U{A0}5\U{A0}";
    assert SkipSpace(a, 0, IntSpaceChars) == 1;
    assert SkipSpaceBack(a, 1, 3, IntSpaceChars) == 2;
    assert a[1..2] == "5";
    assert DigitsValue("5") == 5;
  }
}
