/**
 * ASCII models of the Python string primitives the catalog loader and the
 * recommendation explanations rely on: str.strip, str.lower,
 * str.replace(" ", ""), str.split(sep), sep.join(parts), str.split(sep, 1),
 * int(str) and the "{n}" / "{n:+d}" integer formats.
 */
module Text {
  import opened Wrappers

  /** Python's str.isspace on ASCII: space, \t \n \v \f \r and the separators 0x1C..0x1F. */
  predicate IsSpace(c: char) {
    var n := c as int;
    n == 32 || 9 <= n <= 13 || 28 <= n <= 31
  }

  predicate AllSpace(s: string) {
    forall i :: 0 <= i < |s| ==> IsSpace(s[i])
  }

  /** c does not occur in s (the negation of Python's `c in s` for one character). */
  predicate Lacks(s: string, c: char) {
    forall k :: 0 <= k < |s| ==> s[k] != c
  }

  /** No whitespace at either end. */
  predicate IsTrimmed(s: string) {
    s == [] || (!IsSpace(s[0]) && !IsSpace(s[|s| - 1]))
  }

  /** str.lstrip(): drops the leading whitespace. */
  function TrimLeft(s: string): (r: string)
    ensures r == [] || !IsSpace(r[0])
  {
    if s != [] && IsSpace(s[0]) then TrimLeft(s[1..]) else s
  }

  /** str.rstrip(): drops the trailing whitespace. */
  function TrimRight(s: string): (r: string)
    ensures r == [] || !IsSpace(r[|r| - 1])
    ensures r != [] ==> s != [] && r[0] == s[0]
  {
    if s != [] && IsSpace(s[|s| - 1]) then TrimRight(s[..|s| - 1]) else s
  }

  /** str.strip(): drops whitespace at both ends and nothing else. */
  function Trim(s: string): (r: string)
    ensures IsTrimmed(r)
  {
    TrimRight(TrimLeft(s))
  }

  /** Left stripping cuts off a prefix of whitespace. */
  lemma {:induction false} TrimLeftCut(s: string)
    ensures |TrimLeft(s)| <= |s|
    ensures TrimLeft(s) == s[|s| - |TrimLeft(s)|..] && AllSpace(s[..|s| - |TrimLeft(s)|])
  {
    if s != [] && IsSpace(s[0]) {
      TrimLeftCut(s[1..]);
      var k := |s| - |TrimLeft(s)|;
      assert s[1..][k - 1..] == s[k..];
      assert s[..k] == [s[0]] + s[1..][..k - 1];
    }
  }

  /** Right stripping cuts off a suffix of whitespace. */
  lemma {:induction false} TrimRightCut(s: string)
    ensures |TrimRight(s)| <= |s|
    ensures TrimRight(s) == s[..|TrimRight(s)|] && AllSpace(s[|TrimRight(s)|..])
  {
    if s != [] && IsSpace(s[|s| - 1]) {
      var init := s[..|s| - 1];
      TrimRightCut(init);
      var k := |TrimRight(s)|;
      assert init[..k] == s[..k];
      assert s[k..] == init[k..] + [s[|s| - 1]];
    }
  }

  /** What stripping removes is whitespace at the two ends, and nothing else. */
  lemma TrimCuts(s: string)
    ensures exists i, j :: 0 <= i <= j <= |s| && Trim(s) == s[i..j] && AllSpace(s[..i]) && AllSpace(s[j..])
  {
    var t := TrimLeft(s);
    TrimLeftCut(s);
    TrimRightCut(t);
    var i := |s| - |t|;
    var j := i + |Trim(s)|;
    assert Trim(s) == s[i..j];
    assert s[j..] == t[|Trim(s)|..];
    assert 0 <= i <= j <= |s| && Trim(s) == s[i..j] && AllSpace(s[..i]) && AllSpace(s[j..]);
  }

  /** Stripping a string that is already stripped changes nothing. */
  lemma TrimTrimmed(s: string)
    requires IsTrimmed(s)
    ensures Trim(s) == s
  {
  }

  function LowerChar(c: char): char {
    if 'A' <= c <= 'Z' then (c as int + 32) as char else c
  }

  /** str.lower() on ASCII letters. */
  function Lower(s: string): (r: string)
    ensures |r| == |s|
  {
    if s == [] then [] else [LowerChar(s[0])] + Lower(s[1..])
  }

  /** Lowering works letter by letter. */
  lemma {:induction false} LowerAt(s: string, i: nat)
    requires i < |s|
    ensures Lower(s)[i] == LowerChar(s[i])
  {
    if i > 0 {
      LowerAt(s[1..], i - 1);
    }
  }

  /** Two strings lower to the same string exactly when they agree letter by letter up to case. */
  lemma LowerEqual(x: string, y: string)
    ensures Lower(x) == Lower(y) <==> |x| == |y| && forall i :: 0 <= i < |x| ==> LowerChar(x[i]) == LowerChar(y[i])
  {
    if |x| == |y| {
      forall i | 0 <= i < |x| ensures Lower(x)[i] == LowerChar(x[i]) && Lower(y)[i] == LowerChar(y[i]) {
        LowerAt(x, i);
        LowerAt(y, i);
      }
    }
  }

  /** str.replace(" ", ""): removes every space (and only the space character). */
  function RemoveSpaces(s: string): (r: string)
    ensures Lacks(r, ' ')
    ensures |r| <= |s|
  {
    if s == [] then []
    else (if s[0] == ' ' then [] else [s[0]]) + RemoveSpaces(s[1..])
  }

  /** Removing spaces works piecewise: the result for a + b is the results for a and b, in order. */
  lemma {:induction false} RemoveSpacesAppend(a: string, b: string)
    ensures RemoveSpaces(a + b) == RemoveSpaces(a) + RemoveSpaces(b)
  {
    if a != [] {
      RemoveSpacesAppend(a[1..], b);
      assert (a + b)[1..] == a[1..] + b;
    } else {
      assert a + b == b;
    }
  }

  /** A string without spaces is left as it is, so only spaces are ever removed. */
  lemma {:induction false} RemoveSpacesKeeps(s: string)
    requires Lacks(s, ' ')
    ensures RemoveSpaces(s) == s
  {
    if s != [] {
      RemoveSpacesKeeps(s[1..]);
    }
  }

  /** A single space is removed entirely. */
  lemma RemoveSpacesSpace()
    ensures RemoveSpaces(" ") == ""
  {
  }

  /** Number of occurrences of c in s. */
  function Count(s: string, c: char): nat {
    if s == [] then 0 else (if s[0] == c then 1 else 0) + Count(s[1..], c)
  }

  lemma CountZero(s: string, c: char)
    ensures Count(s, c) == 0 <==> Lacks(s, c)
  {
    if s != [] {
      CountZero(s[1..], c);
    }
  }

  /** sep.join(parts). */
  function Join(parts: seq<string>, sep: string): string {
    if |parts| == 0 then ""
    else if |parts| == 1 then parts[0]
    else parts[0] + sep + Join(parts[1..], sep)
  }

  /** Joining peels off the last part as well as the first. */
  lemma {:induction false} JoinLast(parts: seq<string>, sep: string)
    requires |parts| >= 2
    ensures Join(parts, sep) == Join(parts[..|parts| - 1], sep) + sep + parts[|parts| - 1]
  {
    if |parts| > 2 {
      JoinLast(parts[1..], sep);
      assert parts[1..][..|parts| - 2] == parts[..|parts| - 1][1..];
    }
  }

  /**
   * s.split(sep): the pieces between the separators, one more piece than
   * there are separators, none containing the separator, and joining them
   * gives back s.
   */
  function Split(s: string, sep: char): (r: seq<string>)
    ensures |r| == Count(s, sep) + 1
    ensures forall i :: 0 <= i < |r| ==> Lacks(r[i], sep)
    ensures Join(r, [sep]) == s
  {
    if s == [] then [""]
    else
      var rest := Split(s[1..], sep);
      if s[0] == sep then
        [""] + rest
      else
        var r := [[s[0]] + rest[0]] + rest[1..];
        assert r[1..] == rest[1..];
        assert |rest| >= 2 ==> Join(rest, [sep]) == rest[0] + [sep] + Join(rest[1..], [sep]);
        r
  }

  /** A leading piece without the separator stays glued to the first piece of the rest. */
  lemma {:induction false} SplitPrefix(p: string, t: string, sep: char)
    requires Lacks(p, sep)
    ensures Split(p + t, sep) == [p + Split(t, sep)[0]] + Split(t, sep)[1..]
  {
    if p != [] {
      var s := p + t;
      var st := Split(t, sep);
      assert s[0] == p[0] && s[0] != sep;
      assert s[1..] == p[1..] + t;
      SplitPrefix(p[1..], t, sep);
      SplitCons(s, sep);
      var rest := Split(s[1..], sep);
      assert rest[0] == p[1..] + st[0];
      assert rest[1..] == st[1..];
      assert [p[0]] + (p[1..] + st[0]) == p + st[0];
    } else {
      assert p + t == t;
      assert p + Split(t, sep)[0] == Split(t, sep)[0];
    }
  }

  /** A first character other than the separator joins the first piece of the rest. */
  lemma SplitCons(s: string, sep: char)
    requires s != [] && s[0] != sep
    ensures Split(s, sep) == [[s[0]] + Split(s[1..], sep)[0]] + Split(s[1..], sep)[1..]
  {
  }

  /** Splitting undoes joining, when no part contains the separator. */
  lemma {:induction false} SplitJoin(parts: seq<string>, sep: char)
    requires |parts| >= 1
    requires forall i :: 0 <= i < |parts| ==> Lacks(parts[i], sep)
    ensures Split(Join(parts, [sep]), sep) == parts
  {
    if |parts| == 1 {
      SplitPrefix(parts[0], "", sep);
      assert parts[0] + "" == parts[0];
    } else {
      SplitJoin(parts[1..], sep);
      var j := Join(parts[1..], [sep]);
      assert Join(parts, [sep]) == parts[0] + ([sep] + j);
      SplitPrefix(parts[0], [sep] + j, sep);
      assert ([sep] + j)[1..] == j;
      assert Split([sep] + j, sep) == [""] + Split(j, sep);
      assert parts[0] + "" == parts[0];
      assert parts == [parts[0]] + parts[1..];
    }
  }

  /** Joining two or more parts always leaves a separator in the result. */
  lemma JoinHasSeparator(parts: seq<string>, sep: char)
    requires |parts| >= 2
    ensures !Lacks(Join(parts, [sep]), sep)
  {
    assert Join(parts, [sep])[|parts[0]|] == sep;
  }

  /** Joining stripped parts with a non-space separator gives a stripped string. */
  lemma {:induction false} JoinTrimmed(parts: seq<string>, sep: char)
    requires !IsSpace(sep)
    requires forall i :: 0 <= i < |parts| ==> IsTrimmed(parts[i])
    ensures IsTrimmed(Join(parts, [sep]))
  {
    if |parts| >= 2 {
      var rest := Join(parts[1..], [sep]);
      JoinTrimmed(parts[1..], sep);
      var j := parts[0] + [sep] + rest;
      assert j[0] == if parts[0] == [] then sep else parts[0][0];
      assert j[|j| - 1] == if rest == [] then sep else rest[|rest| - 1];
    }
  }

  /** The first index of c in s. */
  function IndexOf(s: string, c: char): (i: nat)
    requires !Lacks(s, c)
    ensures i < |s| && s[i] == c && Lacks(s[..i], c)
  {
    if s[0] == c then 0
    else
      var i := 1 + IndexOf(s[1..], c);
      assert s[..i] == [s[0]] + s[1..][..i - 1];
      i
  }

  /** s.split(sep, 1): the text before the first separator, and everything after it. */
  function SplitFirst(s: string, sep: char): (r: (string, string))
    requires !Lacks(s, sep)
    ensures Lacks(r.0, sep)
    ensures s == r.0 + [sep] + r.1
  {
    var i := IndexOf(s, sep);
    assert s == s[..i] + [sep] + s[i + 1..];
    (s[..i], s[i + 1..])
  }

  /** Splitting a join once gives its first part and the join of the others. */
  lemma SplitFirstJoin(parts: seq<string>, sep: char)
    requires |parts| >= 2
    requires Lacks(parts[0], sep)
    ensures !Lacks(Join(parts, [sep]), sep)
    ensures SplitFirst(Join(parts, [sep]), sep) == (parts[0], Join(parts[1..], [sep]))
  {
    var j := Join(parts, [sep]);
    JoinHasSeparator(parts, sep);
    assert j[..|parts[0]|] == parts[0];
    assert j[|parts[0]|] == sep;
  }

  // ---------------------------------------------------------------- integers

  predicate IsDigit(c: char) {
    '0' <= c <= '9'
  }

  predicate AllDigits(s: string) {
    forall i :: 0 <= i < |s| ==> IsDigit(s[i])
  }

  /** The decimal value of a string of ASCII digits (leading zeros allowed, as int() allows them). */
  function DigitsValue(s: string): nat
    requires AllDigits(s)
  {
    if s == [] then 0
    else 10 * DigitsValue(s[..|s| - 1]) + (s[|s| - 1] as int - '0' as int)
  }

  function DigitChar(d: nat): (c: char)
    requires d < 10
    ensures IsDigit(c) && c as int - '0' as int == d
  {
    ('0' as int + d) as char
  }

  /** str(n) for n >= 0: the shortest decimal digits whose value is n. */
  function NatToString(n: nat): (s: string)
    ensures s != [] && AllDigits(s)
    ensures DigitsValue(s) == n
    ensures n >= 10 ==> s[0] != '0'
  {
    if n < 10 then [DigitChar(n)]
    else
      var s := NatToString(n / 10) + [DigitChar(n % 10)];
      assert s[..|s| - 1] == NatToString(n / 10);
      s
  }

  /**
   * int(s) restricted to an optional sign and ASCII decimal digits, after
   * stripping whitespace; None where Python raises ValueError.
   */
  function ParseInt(s: string): Option<int> {
    var t := Trim(s);
    if IsInteger(t) then
      if t[0] == '-' then Some(0 - DigitsValue(t[1..]))
      else if t[0] == '+' then Some(DigitsValue(t[1..]))
      else Some(DigitsValue(t))
    else None
  }

  /** int() succeeds exactly on an integer literal with whitespace around it. */
  lemma ParseIntDefined(s: string)
    ensures ParseInt(s).Some? <==> exists i, j :: 0 <= i <= j <= |s| && AllSpace(s[..i]) && AllSpace(s[j..]) && IsInteger(s[i..j])
  {
    TrimmedInteger(s);
  }

  /** An optional sign followed by at least one digit. */
  predicate IsInteger(t: string) {
    if t != [] && (t[0] == '-' || t[0] == '+') then |t| > 1 && AllDigits(t[1..])
    else t != [] && AllDigits(t)
  }

  /** An integer literal surrounded by whitespace strips to exactly that literal. */
  lemma TrimmedInteger(s: string)
    ensures IsInteger(Trim(s)) <==> exists i, j :: 0 <= i <= j <= |s| && AllSpace(s[..i]) && AllSpace(s[j..]) && IsInteger(s[i..j])
  {
    var t := Trim(s);
    TrimCuts(s);
    var i, j :| 0 <= i <= j <= |s| && t == s[i..j] && AllSpace(s[..i]) && AllSpace(s[j..]);
    forall i', j' | 0 <= i' <= j' <= |s| && AllSpace(s[..i']) && AllSpace(s[j'..]) && IsInteger(s[i'..j'])
      ensures IsInteger(t)
    {
      IntegerBounds(s, i', j', i, j);
    }
  }

  /** Two ways of cutting whitespace off the ends that both leave a non-space-bounded core agree. */
  lemma IntegerBounds(s: string, i': nat, j': nat, i: nat, j: nat)
    requires 0 <= i' <= j' <= |s| && AllSpace(s[..i']) && AllSpace(s[j'..]) && IsInteger(s[i'..j'])
    requires 0 <= i <= j <= |s| && IsTrimmed(s[i..j]) && AllSpace(s[..i]) && AllSpace(s[j..])
    ensures s[i..j] == s[i'..j']
  {
    IntegerEnds(s[i'..j']);
    assert !IsSpace(s[i']) && !IsSpace(s[j' - 1]) by {
      assert s[i'..j'][0] == s[i'];
      assert s[i'..j'][j' - i' - 1] == s[j' - 1];
    }
    PrefixSpace(s, i, i');
    SuffixSpace(s, j, i');
    assert i < j;
    assert !IsSpace(s[i]) && !IsSpace(s[j - 1]) by {
      assert s[i..j][0] == s[i];
      assert s[i..j][j - i - 1] == s[j - 1];
    }
    PrefixSpace(s, i', i);
    SuffixSpace(s, j, j' - 1);
    SuffixSpace(s, j', j - 1);
  }

  /** Every character before a whitespace-only prefix's end is whitespace. */
  lemma PrefixSpace(s: string, i: nat, k: nat)
    ensures k < i <= |s| && AllSpace(s[..i]) ==> IsSpace(s[k])
  {
    if k < i <= |s| {
      assert s[..i][k] == s[k];
    }
  }

  /** Every character of a whitespace-only suffix is whitespace. */
  lemma SuffixSpace(s: string, j: nat, k: int)
    ensures j <= k < |s| && AllSpace(s[j..]) ==> IsSpace(s[k])
  {
    if j <= k < |s| {
      assert s[j..][k - j] == s[k];
    }
  }

  /** An integer literal starts with a sign or a digit and ends with a digit. */
  lemma IntegerEnds(t: string)
    requires IsInteger(t)
    ensures !IsSpace(t[0]) && !IsSpace(t[|t| - 1])
  {
    if t[0] == '-' || t[0] == '+' {
      assert t[1..][|t| - 2] == t[|t| - 1];
    }
  }

  /** str(n). */
  function IntToString(n: int): (s: string)
    ensures s != [] && IsTrimmed(s) && Lacks(s, ' ')
  {
    var s := if n < 0 then "-" + NatToString(-n) else NatToString(n);
    assert n < 0 ==> s[1..] == NatToString(-n);
    FormattedInteger(s);
    s
  }

  /** f"{n:+d}": the integer with an explicit sign, "+0" for zero. */
  function SignedToString(n: int): (s: string)
    ensures s != [] && IsTrimmed(s) && Lacks(s, ' ')
    ensures s[0] == (if n < 0 then '-' else '+')
  {
    var s := (if n < 0 then "-" else "+") + NatToString(if n < 0 then -n else n);
    assert s[1..] == NatToString(if n < 0 then -n else n);
    FormattedInteger(s);
    s
  }

  /** int(str(n)) == n. */
  lemma IntToStringParses(n: int)
    ensures ParseInt(IntToString(n)) == Some(n)
  {
    var s := IntToString(n);
    assert n < 0 ==> s[1..] == NatToString(-n);
    FormattedInteger(s);
  }

  /** int(f"{n:+d}") == n. */
  lemma SignedToStringParses(n: int)
    ensures ParseInt(SignedToString(n)) == Some(n)
  {
    var s := SignedToString(n);
    assert s[1..] == NatToString(if n < 0 then -n else n);
    FormattedInteger(s);
  }

  /** A sign and digits, or just digits, contain no whitespace and parse as they read. */
  lemma FormattedInteger(s: string)
    requires IsInteger(s)
    ensures IsTrimmed(s) && Lacks(s, ' ')
    ensures Trim(s) == s
  {
    assert forall i :: 0 <= i < |s| ==> !IsSpace(s[i]) by {
      forall i | 0 <= i < |s| ensures !IsSpace(s[i]) {
        if i > 0 { assert s[1..][i - 1] == s[i]; }
      }
    }
    TrimTrimmed(s);
  }

  /** The text up to (not including) the first space. */
  function Token(s: string): (t: string)
    ensures t <= s && Lacks(t, ' ')
  {
    if s == [] || s[0] == ' ' then [] else [s[0]] + Token(s[1..])
  }

  /** A token followed by a space, or the end, reads back as itself. */
  lemma {:induction false} TokenOf(t: string, rest: string)
    requires Lacks(t, ' ')
    requires rest == [] || rest[0] == ' '
    ensures Token(t + rest) == t
  {
    if t != [] {
      assert (t + rest)[1..] == t[1..] + rest;
      TokenOf(t[1..], rest);
    }
  }
}
