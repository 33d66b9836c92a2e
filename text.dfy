/**
 * The string helpers of the trial runner: prefix and suffix tests, Python's
 * `str.strip`, the extraction of a decompressed-output path from a command,
 * named placeholder substitution in command templates and the rendering of a
 * compression level.
 */
module Text {
  import opened Wrappers

  predicate StartsWith(s: string, prefix: string) {
    |prefix| <= |s| && s[..|prefix|] == prefix
  }

  predicate EndsWith(s: string, suffix: string) {
    |suffix| <= |s| && s[|s| - |suffix|..] == suffix
  }

  /** The characters for which Python's `str.isspace` holds. */
  predicate IsSpace(c: char) {
    var n := c as int;
    (9 <= n <= 13) || (28 <= n <= 32) || n == 0x85 || n == 0xA0 || n == 0x1680
    || (0x2000 <= n <= 0x200A) || n == 0x2028 || n == 0x2029 || n == 0x202F
    || n == 0x205F || n == 0x3000
  }

  /** Neither end of `s` is whitespace. */
  predicate Stripped(s: string) {
    s == [] || (!IsSpace(s[0]) && !IsSpace(s[|s| - 1]))
  }

  predicate AllSpace(s: string) {
    forall i :: 0 <= i < |s| ==> IsSpace(s[i])
  }

  /** Drops the leading whitespace of `s`. */
  function TrimStart(s: string): (r: string)
    ensures EndsWith(s, r)
    ensures r == [] || !IsSpace(r[0])
    ensures AllSpace(s[..|s| - |r|])
  {
    if s != [] && IsSpace(s[0]) then
      var r := TrimStart(s[1..]);
      assert s[..|s| - |r|] == [s[0]] + s[1..][..|s| - 1 - |r|];
      r
    else s
  }

  /** Drops the trailing whitespace of `s`. */
  function TrimEnd(s: string): (r: string)
    ensures StartsWith(s, r)
    ensures r == [] || !IsSpace(r[|r| - 1])
    ensures AllSpace(s[|r|..])
  {
    if s != [] && IsSpace(s[|s| - 1]) then
      var r := TrimEnd(s[..|s| - 1]);
      assert s[|r|..] == s[..|s| - 1][|r|..] + [s[|s| - 1]];
      r
    else s
  }

  /** Python's `str.strip()` without argument. */
  function Strip(s: string): (r: string)
    ensures Stripped(r)
    ensures forall c :: c in r ==> c in s
  {
    var t := TrimStart(s);
    var r := TrimEnd(t);
    var i := |s| - |t|;
    assert s[i..] == t && t[..|r|] == r;
    SliceMembers(s, i, i + |r|);
    r
  }

  /** `Strip` removes whitespace only, and only at the ends: `s` is whitespace,
      then the result, then whitespace. */
  lemma StripRemovesOnlySpace(s: string)
    ensures var r := Strip(s);
            exists i :: 0 <= i <= |s| - |r| && s[i..i + |r|] == r
                        && AllSpace(s[..i]) && AllSpace(s[i + |r|..])
  {
    var t := TrimStart(s);
    var r := TrimEnd(t);
    var i := |s| - |t|;
    SliceOfSuffix(s, i, t, r);
    assert s[i..i + |r|] == r && AllSpace(s[..i]) && AllSpace(s[i + |r|..]);
  }

  /** Where `t` is the suffix of `s` from `i` on and `r` a prefix of `t`, `r`
      sits in `s` at `i` and the rest of `t` follows it. */
  lemma SliceOfSuffix(s: string, i: nat, t: string, r: string)
    requires i <= |s| && s[i..] == t && StartsWith(t, r)
    ensures i + |r| <= |s| && s[i..i + |r|] == r && s[i + |r|..] == t[|r|..]
  {
    assert s[i..i + |r|] == t[..|r|];
  }

  lemma SliceMembers(s: string, i: nat, j: nat)
    requires i <= j <= |s|
    ensures forall c :: c in s[i..j] ==> c in s
  {
    forall c | c in s[i..j] ensures c in s {
      var k :| 0 <= k < j - i && s[i..j][k] == c;
      assert s[i + k] == c;
    }
  }

  lemma {:induction false} TrimStartAfterSpaces(gap: string, t: string)
    requires AllSpace(gap)
    requires t == [] || !IsSpace(t[0])
    ensures TrimStart(gap + t) == t
    decreases |gap|
  {
    if gap == [] {
      assert gap + t == t;
    } else {
      assert (gap + t)[1..] == gap[1..] + t;
      TrimStartAfterSpaces(gap[1..], t);
    }
  }

  /** Whitespace in front of an already stripped text is all that `Strip` removes. */
  lemma StripAfterSpaces(gap: string, t: string)
    requires AllSpace(gap) && Stripped(t)
    ensures Strip(gap + t) == t
  {
    TrimStartAfterSpaces(gap, t);
  }

  /** `s.split(c)[-1]`: the text after the last occurrence of `c`, or all of `s`. */
  function AfterLast(s: string, c: char): (r: string)
    ensures c !in r
    ensures EndsWith(s, r)
    ensures c in s ==> |r| < |s| && s[|s| - |r| - 1] == c
    ensures c !in s ==> r == s
  {
    if s == [] then []
    else if s[|s| - 1] == c then []
    else
      var init := s[..|s| - 1];
      var r := AfterLast(init, c) + [s[|s| - 1]];
      assert s == init + [s[|s| - 1]];
      assert c in s ==> c in init;
      r
  }

  /** The decompressed-output path read back from a command line: the stripped text
      after its last `>`, or the empty string when the command has no `>`. */
  function RedirectTarget(cmd: string): (r: string)
    ensures '>' !in r && Stripped(r)
    ensures '>' !in cmd ==> r == []
  {
    if '>' in cmd then Strip(AfterLast(cmd, '>')) else []
  }

  lemma {:induction false} AfterLastOfSuffix(pre: string, c: char, rest: string)
    requires c !in rest
    ensures AfterLast(pre + [c] + rest, c) == rest
    decreases |rest|
  {
    var s := pre + [c] + rest;
    if rest != [] {
      assert s[..|s| - 1] == pre + [c] + rest[..|rest| - 1];
      assert c !in rest[..|rest| - 1];
      AfterLastOfSuffix(pre, c, rest[..|rest| - 1]);
      assert rest == rest[..|rest| - 1] + [rest[|rest| - 1]];
    }
  }

  /** A command that redirects into `target` yields exactly `target`, whatever comes
      before the redirection. */
  lemma RedirectTargetOfRedirect(pre: string, gap: string, target: string)
    requires AllSpace(gap) && '>' !in gap
    requires '>' !in target && Stripped(target)
    ensures RedirectTarget(pre + ">" + gap + target) == target
  {
    var rest := gap + target;
    assert pre + ">" + gap + target == pre + ['>'] + rest;
    assert '>' !in rest;
    AfterLastOfSuffix(pre, '>', rest);
    StripAfterSpaces(gap, target);
  }

  /** The values a template's named placeholders are replaced with; `level` is
      absent where the caller does not pass a `level` argument. */
  datatype Bindings = Bindings(level: Option<string>, infile: string, outfile: string)

  /** Text without a `{`, so without any placeholder. */
  predicate Literal(t: string) {
    t == [] || (t[0] != '{' && Literal(t[1..]))
  }

  /** A text none of whose characters is `{` is `Literal`. */
  lemma {:induction false} NoBraceIsLiteral(t: string)
    requires forall i :: 0 <= i < |t| ==> t[i] != '{'
    ensures Literal(t)
    decreases |t|
  {
    if t != [] {
      assert forall i :: 0 <= i < |t| - 1 ==> t[1..][i] == t[i + 1];
      NoBraceIsLiteral(t[1..]);
    }
  }

  /** Substitutes `{level}`, `{infile}` and `{outfile}` in `t`; all other text is
      copied, so a template without `{` comes out unchanged. */
  function Format(t: string, b: Bindings): (r: string)
    ensures Literal(t) ==> r == t
    decreases |t|
  {
    if t == [] then []
    else if b.level.Some? && StartsWith(t, "{level}") then
      assert t[..7][0] == t[0];
      b.level.value + Format(t[7..], b)
    else if StartsWith(t, "{infile}") then
      assert t[..8][0] == t[0];
      b.infile + Format(t[8..], b)
    else if StartsWith(t, "{outfile}") then
      assert t[..9][0] == t[0];
      b.outfile + Format(t[9..], b)
    else
      assert t == [t[0]] + t[1..];
      [t[0]] + Format(t[1..], b)
  }

  /** The characters that can continue a placeholder after its `{`. */
  predicate PlaceholderChar(c: char) {
    ('a' <= c <= 'z') || c == '}'
  }

  lemma PlaceholderNotSplit(p: string, q: string, key: string)
    requires p != [] && q != [] && !PlaceholderChar(q[0])
    requires |key| > 0 && forall i :: 1 <= i < |key| ==> PlaceholderChar(key[i])
    ensures StartsWith(p + q, key) <==> StartsWith(p, key)
  {
    if |p| < |key| <= |p + q| {
      assert (p + q)[..|key|][|p|] == q[0];
      assert PlaceholderChar(key[|p|]);
    }
    if |key| <= |p| {
      assert (p + q)[..|key|] == p[..|key|];
    }
  }

  /** Appending text that cannot continue a placeholder leaves the first step of
      `Format` unchanged. */
  lemma StepUnaffected(p: string, q: string, b: Bindings)
    requires p != [] && q != [] && !PlaceholderChar(q[0])
    ensures PlaceholderLength(p + q, b) == PlaceholderLength(p, b)
    ensures Replacement(p + q, b) == Replacement(p, b)
  {
    PlaceholderNotSplit(p, q, "{level}");
    PlaceholderNotSplit(p, q, "{infile}");
    PlaceholderNotSplit(p, q, "{outfile}");
  }

  /** Formatting distributes over a split that does not cut a placeholder in two. */
  lemma {:induction false} FormatAppend(p: string, q: string, b: Bindings)
    requires q == [] || !PlaceholderChar(q[0])
    ensures Format(p + q, b) == Format(p, b) + Format(q, b)
    decreases |p|
  {
    if q == [] {
      assert p + q == p;
    } else if p == [] {
      assert p + q == q;
    } else {
      var s := p + q;
      var n := PlaceholderLength(p, b);
      StepUnaffected(p, q, b);
      assert s[n..] == p[n..] + q;
      FormatAppend(p[n..], q, b);
      FormatStep(s, b);
      FormatStep(p, b);
    }
  }

  /** A character other than `{` is copied as it is. */
  lemma FormatCopies(ch: char, t: string, b: Bindings)
    requires ch != '{'
    ensures Format([ch] + t, b) == [ch] + Format(t, b)
  {
    var s := [ch] + t;
    assert s[0] == ch && s[1..] == t;
    assert |s| >= 7 ==> s[..7][0] == ch;
    assert |s| >= 8 ==> s[..8][0] == ch;
    assert |s| >= 9 ==> s[..9][0] == ch;
  }

  /** `{outfile}` alone formats to the bound output path. */
  lemma FormatOutfileKey(b: Bindings)
    ensures Format("{outfile}", b) == b.outfile
  {
    var outfile: string := "{outfile}";
    assert outfile[9..] == [] && outfile[..9] == outfile;
    assert outfile[..8][1] != 'i' && outfile[..7][1] != 'l';
  }

  /** Each placeholder alone formats to its bound value; `{level}` without a
      bound level is copied as it is. */
  lemma FormatKeys(b: Bindings)
    ensures Format("{infile}", b) == b.infile
    ensures Format("{outfile}", b) == b.outfile
    ensures b.level.Some? ==> Format("{level}", b) == b.level.value
    ensures b.level.None? ==> Format("{level}", b) == "{level}"
  {
    var infile: string := "{infile}";
    var level: string := "{level}";
    FormatOutfileKey(b);
    assert infile[8..] == [] && infile[..8] == infile && infile[..7][1] != level[1];
    assert level[7..] == [] && level[..7] == level;
    if b.level.None? {
      NoBraceIsLiteral(level[1..]);
      assert level == [level[0]] + level[1..];
    }
  }

  /** The redirection `> {outfile}` alone formats to `> ` and the bound output path. */
  lemma FormatRedirectTail(gt: string, key: string, b: Bindings)
    requires gt == "> " && key == "{outfile}"
    ensures Format(gt + key, b) == gt + b.outfile
  {
    NoBraceIsLiteral(gt);
    FormatOutfileKey(b);
    FormatAppend(gt, key, b);
  }

  /** A template ending in a redirection to `{outfile}` formats to the formatted
      prefix followed by the redirection to the bound output path. */
  lemma FormatRedirect(pre: string, b: Bindings)
    ensures Format(pre + "> {outfile}", b) == Format(pre, b) + "> " + b.outfile
  {
    var gt: string, key: string := "> ", "{outfile}";
    FormatRedirectTail(gt, key, b);
    assert gt + key == "> {outfile}";
    FormatAppend(pre, gt + key, b);
  }

  /** How many characters of a non-empty `t` one step of `Format` consumes. */
  function PlaceholderLength(t: string, b: Bindings): (n: nat)
    requires t != []
    ensures 1 <= n <= |t|
  {
    if b.level.Some? && StartsWith(t, "{level}") then 7
    else if StartsWith(t, "{infile}") then 8
    else if StartsWith(t, "{outfile}") then 9
    else 1
  }

  /** The text one step of `Format` emits for the start of a non-empty `t`. */
  function Replacement(t: string, b: Bindings): string
    requires t != []
  {
    if b.level.Some? && StartsWith(t, "{level}") then b.level.value
    else if StartsWith(t, "{infile}") then b.infile
    else if StartsWith(t, "{outfile}") then b.outfile
    else [t[0]]
  }

  lemma FormatStep(t: string, b: Bindings)
    requires t != []
    ensures Format(t, b) == Replacement(t, b) + Format(t[PlaceholderLength(t, b)..], b)
  {
  }

  /** The identity the runner keeps as a hook for command sanitising. */
  function SafeCmd(cmd: string): (r: string)
    ensures r == cmd
  {
    cmd
  }

  /** A compression level from the configuration: a JSON number or a string. */
  datatype Level = Number(n: int) | Word(s: string)

  /** `str(level)`, or the empty string for a missing (`None`) level: a string
      level is used as it is, and a numeric one becomes the canonical decimal
      numeral that reads back as the same number. */
  function LevelString(level: Option<Level>): (r: string)
    ensures level.None? ==> r == ""
    ensures level.Some? && level.value.Word? ==> r == level.value.s
    ensures level.Some? && level.value.Number? ==> Decimal(r) && Canonical(r) && ParseInt(r) == level.value.n
  {
    match level
    case None => ""
    case Some(Number(n)) =>
      IntToStringRoundTrip(n);
      IntToString(n)
    case Some(Word(s)) => s
  }

  predicate IsDigit(c: char) {
    '0' <= c <= '9'
  }

  predicate AllDigits(s: string) {
    forall i :: 0 <= i < |s| ==> IsDigit(s[i])
  }

  function DigitChar(d: nat): (c: char)
    requires d < 10
    ensures IsDigit(c)
  {
    ('0' as int + d) as char
  }

  /** Python's decimal `str` of a non-negative integer. */
  function NatToString(n: nat): (r: string)
    ensures |r| > 0 && AllDigits(r)
    ensures r[0] == '0' ==> n == 0
  {
    if n < 10 then [DigitChar(n)]
    else NatToString(n / 10) + [DigitChar(n % 10)]
  }

  /** Python's decimal `str` of an integer, with `-` in front of negatives. */
  function IntToString(n: int): string {
    if n < 0 then "-" + NatToString(-n) else NatToString(n)
  }

  /** The value of a string of decimal digits. */
  function DigitsValue(s: string): nat
    requires AllDigits(s)
  {
    if s == [] then 0
    else 10 * DigitsValue(s[..|s| - 1]) + (s[|s| - 1] as int - '0' as int)
  }

  /** A decimal numeral: digits, with an optional leading `-`. */
  predicate Decimal(s: string) {
    s != [] && (s[0] == '-' ==> AllDigits(s[1..])) && (s[0] != '-' ==> AllDigits(s))
  }

  /** A numeral as `str` writes it: no leading zero unless it is `0` itself,
      and no `-0`. */
  predicate Canonical(s: string) {
    s != [] && (s[0] == '0' ==> |s| == 1) && (s[0] == '-' ==> |s| > 1 && s[1] != '0')
  }

  /** Python's `int` of a decimal numeral. */
  function ParseInt(s: string): int
    requires Decimal(s)
  {
    if s[0] == '-' then -(DigitsValue(s[1..]) as int) else DigitsValue(s)
  }

  lemma {:induction false} NatToStringRoundTrip(n: nat)
    ensures DigitsValue(NatToString(n)) == n
    decreases n
  {
    var r := NatToString(n);
    if n < 10 {
      assert r[..|r| - 1] == [];
    } else {
      NatToStringRoundTrip(n / 10);
      assert r[..|r| - 1] == NatToString(n / 10);
    }
  }

  /** `int(str(n)) == n`, and `str(n)` is canonical. */
  lemma IntToStringRoundTrip(n: int)
    ensures Decimal(IntToString(n)) && Canonical(IntToString(n))
    ensures ParseInt(IntToString(n)) == n
  {
    if n < 0 {
      NatToStringRoundTrip(-n);
      assert IntToString(n)[1..] == NatToString(-n);
      assert IntToString(n)[1] == NatToString(-n)[0];
    } else {
      NatToStringRoundTrip(n);
    }
  }

  /** A digit string without a leading zero has a positive value. */
  lemma {:induction false} LeadingDigitPositive(s: string)
    requires AllDigits(s) && s != [] && s[0] != '0'
    ensures DigitsValue(s) > 0
    decreases |s|
  {
    if |s| > 1 {
      var init := s[..|s| - 1];
      assert init[0] == s[0];
      LeadingDigitPositive(init);
    }
  }

  /** Digit strings without leading zeros are equal when their values are. */
  lemma {:induction false} DigitsValueInjective(s: string, t: string)
    requires AllDigits(s) && AllDigits(t)
    requires s == [] || s[0] != '0'
    requires t == [] || t[0] != '0'
    requires DigitsValue(s) == DigitsValue(t)
    ensures s == t
    decreases |s|
  {
    if s == [] {
      if t != [] { LeadingDigitPositive(t); }
    } else if t == [] {
      LeadingDigitPositive(s);
    } else {
      var si, ti := s[..|s| - 1], t[..|t| - 1];
      var a, b := DigitsValue(si), DigitsValue(ti);
      var ds, dt := s[|s| - 1] as int - '0' as int, t[|t| - 1] as int - '0' as int;
      assert 10 * a + ds == 10 * b + dt;
      assert si == [] || si[0] == s[0];
      assert ti == [] || ti[0] == t[0];
      DigitsValueInjective(si, ti);
      assert s == si + [s[|s| - 1]] && t == ti + [t[|t| - 1]];
    }
  }

  /** A canonical numeral is the only one with its value, so the contract of
      `LevelString` fixes the numeral `str` gives a numeric level. */
  lemma CanonicalNumeralUnique(s: string, t: string)
    requires Decimal(s) && Canonical(s) && Decimal(t) && Canonical(t)
    requires ParseInt(s) == ParseInt(t)
    ensures s == t
  {
    if s[0] == '-' && t[0] == '-' {
      DigitsValueInjective(s[1..], t[1..]);
      assert s == [s[0]] + s[1..] && t == [t[0]] + t[1..];
    } else if s[0] == '-' {
      assert s[1..][0] == s[1];
      LeadingDigitPositive(s[1..]);
    } else if t[0] == '-' {
      assert t[1..][0] == t[1];
      LeadingDigitPositive(t[1..]);
    } else if s[0] == '0' {
      assert s == [s[0]] && s[..|s| - 1] == [] && DigitsValue(s) == 0;
      assert t[0] == '0' ==> t == [t[0]];
      if t[0] != '0' { LeadingDigitPositive(t); }
    } else {
      assert t[0] == '0' ==> t[..|t| - 1] == [] && DigitsValue(t) == 0;
      LeadingDigitPositive(s);
      DigitsValueInjective(s, t);
    }
  }

  /** Two different numeric levels never render to the same level string, so the
      per-level output names they produce differ. */
  lemma NumberLevelsDistinct(a: int, b: int)
    requires a != b
    ensures LevelString(Some(Number(a))) != LevelString(Some(Number(b)))
  {
    IntToStringRoundTrip(a);
    IntToStringRoundTrip(b);
  }
}
