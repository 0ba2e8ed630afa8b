/**
  * Date formatting and file-name template expansion (`LogTime` in the tool module).
  *
  * The local clock is not modelled: every operation takes the current date as a parameter.
  */
module LogTime {

  // ---------------------------------------------------------------------------
  // Dates and chrono's numeric fields
  // ---------------------------------------------------------------------------

  /** Years that chrono's `%Y` prints as four plain digits (no sign). */
  type Year = y: int | 0 <= y <= 9999
  type Month = m: int | 1 <= m <= 12 witness 1
  type Day = d: int | 1 <= d <= 31 witness 1

  /** The local date read from the clock. */
  datatype Date = Date(year: Year, month: Month, day: Day)

  predicate IsDigit(c: char) { '0' <= c <= '9' }

  predicate AllDigits(s: string) { forall i :: 0 <= i < |s| ==> IsDigit(s[i]) }

  predicate NoDigits(s: string) { forall i :: 0 <= i < |s| ==> !IsDigit(s[i]) }

  function Pow10(k: nat): (p: nat)
    ensures p >= 1
  {
    if k == 0 then 1 else 10 * Pow10(k - 1)
  }

  function DigitValue(c: char): (v: nat)
    requires IsDigit(c)
    ensures v < 10
  {
    c as int - '0' as int
  }

  function DigitChar(n: nat): (c: char)
    requires n < 10
    ensures IsDigit(c) && DigitValue(c) == n
  {
    ('0' as int + n) as char
  }

  /** The decimal value of a string of digits, most significant digit first. */
  function ValueOf(s: string): (v: nat)
    requires AllDigits(s)
    ensures v < Pow10(|s|)
  {
    if s == [] then 0 else 10 * ValueOf(s[..|s| - 1]) + DigitValue(s[|s| - 1])
  }

  /** The `width` low-order decimal digits of `n`, zero-padded on the left, as chrono prints
      its fixed-width numeric fields. */
  function Padded(n: nat, width: nat): (s: string)
    ensures |s| == width && AllDigits(s)
  {
    if width == 0 then "" else Padded(n / 10, width - 1) + [DigitChar(n % 10)]
  }

  /** Reading back a zero-padded field gives the number that was printed. */
  lemma {:induction false} ValueOfPadded(n: nat, width: nat)
    requires n < Pow10(width)
    ensures ValueOf(Padded(n, width)) == n
  {
    if width > 0 {
      var s := Padded(n, width);
      var q, r := n / 10, n % 10;
      var init, last := Padded(q, width - 1), DigitChar(r);
      assert s == init + [last];
      assert s[..|s| - 1] == init && s[|s| - 1] == last;
      DropLastDigit(n, width);
      ValueOfPadded(q, width - 1);
    }
  }

  /** Dropping the last decimal digit of a `width`-digit number leaves a `width - 1`-digit one. */
  lemma DropLastDigit(n: nat, width: nat)
    requires width > 0 && n < Pow10(width)
    ensures n / 10 < Pow10(width - 1) && n == 10 * (n / 10) + n % 10
  {
  }

  /** Every digit string of length `width` is the zero-padded form of its value, so
      `Padded(_, width)` is one-to-one on `[0, 10^width)`. */
  lemma {:induction false} PaddedOfValue(s: string)
    requires AllDigits(s)
    ensures Padded(ValueOf(s), |s|) == s
  {
    if s != [] {
      var init := s[..|s| - 1];
      PaddedOfValue(init);
      var v := ValueOf(s);
      assert v / 10 == ValueOf(init) && v % 10 == DigitValue(s[|s| - 1]);
      assert DigitChar(DigitValue(s[|s| - 1])) == s[|s| - 1];
      assert s == init + [s[|s| - 1]];
    }
  }

  /** chrono's `%Y`: the year as four digits. */
  function FormatYear(y: Year): (s: string)
    ensures |s| == 4 && AllDigits(s) && ValueOf(s) == y
  {
    ValueOfPadded(y, 4);
    Padded(y, 4)
  }

  /** chrono's `%m`: the month as two digits, "01" to "12". */
  function FormatMonth(m: Month): (s: string)
    ensures |s| == 2 && AllDigits(s) && ValueOf(s) == m
  {
    ValueOfPadded(m, 2);
    Padded(m, 2)
  }

  /** chrono's `%d`: the day of the month as two digits, "01" to "31". */
  function FormatDay(d: Day): (s: string)
    ensures |s| == 2 && AllDigits(s) && ValueOf(s) == d
  {
    ValueOfPadded(d, 2);
    Padded(d, 2)
  }

  /** `standard_date`: the date in chrono's `%Y%m%d` form, e.g. "20230306". */
  function StandardDate(d: Date): (s: string)
    ensures |s| == 8 && AllDigits(s)
    ensures ValueOf(s[..4]) == d.year && ValueOf(s[4..6]) == d.month && ValueOf(s[6..]) == d.day
  {
    var y, m, dd := FormatYear(d.year), FormatMonth(d.month), FormatDay(d.day);
    assert (y + m + dd)[..4] == y && (y + m + dd)[4..6] == m && (y + m + dd)[6..] == dd;
    y + m + dd
  }

  /** Two dates print the same `%Y%m%d` string exactly when they are the same date, so comparing
      the printed strings compares the dates. */
  lemma StandardDateInjective(a: Date, b: Date)
    ensures StandardDate(a) == StandardDate(b) <==> a == b
  {
    if StandardDate(a) == StandardDate(b) {
      var s := StandardDate(a);
      assert a.year == ValueOf(s[..4]) == b.year;
      assert a.month == ValueOf(s[4..6]) == b.month;
      assert a.day == ValueOf(s[6..]) == b.day;
    }
  }

  // ---------------------------------------------------------------------------
  // Literal substitution
  // ---------------------------------------------------------------------------

  predicate OccursAt(s: string, t: string, i: nat) { i + |t| <= |s| && s[i..i + |t|] == t }

  predicate Contains(s: string, t: string) { exists i: nat | i <= |s| :: OccursAt(s, t, i) }

  predicate StartsWith(s: string, t: string) { |t| <= |s| && s[..|t|] == t }

  /** `Regex::replace_all` for a pattern that matches one literal string: the leftmost
      occurrence is replaced, scanning resumes after it, and so on to the end. */
  function ReplaceAll(s: string, token: string, rep: string): string
    requires |token| > 0
    decreases |s|
  {
    if |s| < |token| then s
    else if s[..|token|] == token then rep + ReplaceAll(s[|token|..], token, rep)
    else [s[0]] + ReplaceAll(s[1..], token, rep)
  }

  lemma ContainsInTail(s: string, t: string, k: nat)
    requires k <= |s| && Contains(s[k..], t)
    ensures Contains(s, t)
  {
    var i: nat :| i <= |s[k..]| && OccursAt(s[k..], t, i);
    assert s[k..][i..i + |t|] == s[k + i..k + i + |t|];
    assert OccursAt(s, t, k + i);
  }

  lemma StartsWithContains(s: string, t: string)
    requires StartsWith(s, t)
    ensures Contains(s, t)
  {
    assert s[0..|t|] == s[..|t|];
    assert OccursAt(s, t, 0);
  }

  /** An occurrence in `[c] + x` is either at the front or inside `x`. */
  lemma ContainsSplitHead(c: char, x: string, t: string)
    ensures Contains([c] + x, t) ==> StartsWith([c] + x, t) || Contains(x, t)
  {
    if Contains([c] + x, t) {
      var s := [c] + x;
      var i: nat :| i <= |s| && OccursAt(s, t, i);
      if i == 0 {
        assert s[..|t|] == s[0..|t|];
      } else {
        assert s[i..i + |t|] == x[i - 1..i - 1 + |t|];
        assert OccursAt(x, t, i - 1);
      }
    }
  }

  /** A digit-free string found in `d + x`, where `d` holds only digits, lies inside `x`. */
  lemma ContainsAfterDigits(d: string, x: string, u: string)
    requires AllDigits(d) && NoDigits(u) && |u| > 0
    ensures Contains(d + x, u) ==> Contains(x, u)
  {
    if Contains(d + x, u) {
      var s := d + x;
      var i: nat :| i <= |s| && OccursAt(s, u, i);
      assert s[i] == u[0];
      assert !IsDigit(s[i]);
      assert i >= |d|;
      assert s[i..i + |u|] == x[i - |d|..i - |d| + |u|];
      assert OccursAt(x, u, i - |d|);
    }
  }

  /** Text that does not contain the token passes through unchanged. */
  lemma {:induction false} ReplaceAllWithoutToken(s: string, token: string, rep: string)
    requires |token| > 0 && !Contains(s, token)
    ensures ReplaceAll(s, token, rep) == s
    decreases |s|
  {
    if |s| >= |token| {
      assert s[..|token|] != token by {
        if s[..|token|] == token { StartsWithContains(s, token); }
      }
      assert !Contains(s[1..], token) by {
        if Contains(s[1..], token) { ContainsInTail(s, token, 1); }
      }
      ReplaceAllWithoutToken(s[1..], token, rep);
      assert [s[0]] + s[1..] == s;
    }
  }

  /** When the replacement is made of digits and `u` has none, a prefix `u` of the result was
      already a prefix of the input: no digit-free text is glued together by a substitution. */
  lemma {:induction false} PrefixSurvives(s: string, token: string, rep: string, u: string)
    requires |token| > 0 && |rep| > 0 && AllDigits(rep) && NoDigits(u)
    ensures StartsWith(ReplaceAll(s, token, rep), u) ==> StartsWith(s, u)
    decreases |s|
  {
    var r := ReplaceAll(s, token, rep);
    if |u| > 0 && |s| >= |token| {
      if s[..|token|] == token {
        assert r[0] == rep[0];
        assert !StartsWith(r, u) by { assert IsDigit(r[0]); }
      } else {
        var rest := ReplaceAll(s[1..], token, rep);
        assert r == [s[0]] + rest;
        PrefixSurvives(s[1..], token, rep, u[1..]);
        if StartsWith(r, u) {
          assert r[..|u|] == [s[0]] + rest[..|u| - 1];
          assert rest[..|u| - 1] == u[1..];
          assert StartsWith(rest, u[1..]);
          assert s[..|u|] == [s[0]] + s[1..][..|u| - 1];
        }
      }
    }
  }

  /** Under the same conditions, any occurrence of `u` in the result was already in the input. */
  lemma {:induction false} ContainsSurvives(s: string, token: string, rep: string, u: string)
    requires |token| > 0 && |rep| > 0 && AllDigits(rep) && NoDigits(u) && |u| > 0
    ensures Contains(ReplaceAll(s, token, rep), u) ==> Contains(s, u)
    decreases |s|
  {
    if |s| >= |token| {
      if s[..|token|] == token {
        var rest := ReplaceAll(s[|token|..], token, rep);
        ContainsAfterDigits(rep, rest, u);
        ContainsSurvives(s[|token|..], token, rep, u);
        if Contains(rest, u) { ContainsInTail(s, u, |token|); }
      } else {
        var rest := ReplaceAll(s[1..], token, rep);
        assert ReplaceAll(s, token, rep) == [s[0]] + rest;
        ContainsSplitHead(s[0], rest, u);
        PrefixSurvives(s, token, rep, u);
        if StartsWith(s, u) { StartsWithContains(s, u); }
        ContainsSurvives(s[1..], token, rep, u);
        if Contains(s[1..], u) { ContainsInTail(s, u, 1); }
      }
    }
  }

  /** Every occurrence is replaced: with a digit-only replacement, a digit-free token no longer
      occurs anywhere in the result. */
  lemma {:induction false} ReplaceAllRemovesToken(s: string, token: string, rep: string)
    requires |token| > 0 && NoDigits(token) && |rep| > 0 && AllDigits(rep)
    ensures !Contains(ReplaceAll(s, token, rep), token)
    decreases |s|
  {
    if |s| >= |token| {
      if s[..|token|] == token {
        var rest := ReplaceAll(s[|token|..], token, rep);
        ReplaceAllRemovesToken(s[|token|..], token, rep);
        ContainsAfterDigits(rep, rest, token);
      } else {
        var rest := ReplaceAll(s[1..], token, rep);
        assert ReplaceAll(s, token, rep) == [s[0]] + rest;
        ReplaceAllRemovesToken(s[1..], token, rep);
        ContainsSplitHead(s[0], rest, token);
        PrefixSurvives(s, token, rep, token);
      }
    }
  }

  /** Where the token does not start, the first character is copied and scanning moves on. */
  lemma CopyHead(s: string, token: string, rep: string)
    requires |token| > 0 && |s| > 0 && !StartsWith(s, token)
    ensures ReplaceAll(s, token, rep) == [s[0]] + ReplaceAll(s[1..], token, rep)
  {
    assert [s[0]] + s[1..] == s;
  }

  /** Text before the token's first character is copied unchanged. */
  lemma {:induction false} SkipPlain(c: string, rest: string, token: string, rep: string)
    requires |token| > 0 && token[0] !in c
    ensures ReplaceAll(c + rest, token, rep) == c + ReplaceAll(rest, token, rep)
    decreases |c|
  {
    if c == [] {
      assert c + rest == rest;
    } else {
      var s := c + rest;
      assert s[0] == c[0];
      CopyHead(s, token, rep);
      assert s[1..] == c[1..] + rest;
      SkipPlain(c[1..], rest, token, rep);
      assert [c[0]] + c[1..] == c;
      assert [c[0]] + (c[1..] + ReplaceAll(rest, token, rep)) == c + ReplaceAll(rest, token, rep);
    }
  }

  /** Text without the token's first character is left unchanged. */
  lemma PlainUnchanged(c: string, token: string, rep: string)
    requires |token| > 0 && token[0] !in c
    ensures ReplaceAll(c, token, rep) == c
  {
    SkipPlain(c, "", token, rep);
    assert c + "" == c;
  }

  /** A same-length piece `q` at the front is replaced when it is the token and copied otherwise,
      provided the token's first character does not recur inside `q`. */
  lemma SkipPiece(q: string, rest: string, token: string, rep: string)
    requires |token| > 0 && |q| == |token| && token[0] !in q[1..]
    ensures ReplaceAll(q + rest, token, rep) == (if q == token then rep else q) + ReplaceAll(rest, token, rep)
  {
    var s := q + rest;
    assert s[..|token|] == q;
    if q == token {
      assert s[|token|..] == rest;
    } else {
      CopyHead(s, token, rep);
      assert s[1..] == q[1..] + rest;
      SkipPlain(q[1..], rest, token, rep);
      assert [q[0]] + q[1..] == q;
      assert [q[0]] + (q[1..] + ReplaceAll(rest, token, rep)) == q + ReplaceAll(rest, token, rep);
    }
  }

  predicate IsTimeVar(v: string) { v == "{d}" || v == "{y}" || v == "{m}" || v == "{D}" }

  /** What one pass for `token` turns the piece `v` into. */
  function Substituted(v: string, token: string, rep: string): string
  {
    if v == token then rep else v
  }

  lemma DigitsArePlain(s: string)
    requires AllDigits(s)
    ensures '{' !in s
  {
    forall i | 0 <= i < |s| ensures s[i] != '{' {
      assert IsDigit(s[i]);
    }
  }

  // ---------------------------------------------------------------------------
  // Time variables in file-name templates
  // ---------------------------------------------------------------------------

  predicate HasNoTimeVar(s: string)
  {
    !Contains(s, "{d}") && !Contains(s, "{y}") && !Contains(s, "{m}") && !Contains(s, "{D}")
  }

  /** `expand_time_var`: four successive replace-alls, `{d}` by `%Y%m%d`, then `{y}` by `%Y`,
      then `{m}` by `%m`, then `{D}` by `%d`, all of the same date `now`. */
  function ExpandTimeVar(template: string, now: Date): string
  {
    var dated := ReplaceAll(template, "{d}", StandardDate(now));
    var withYear := ReplaceAll(dated, "{y}", FormatYear(now.year));
    var withMonth := ReplaceAll(withYear, "{m}", FormatMonth(now.month));
    ReplaceAll(withMonth, "{D}", FormatDay(now.day))
  }

  /** No time variable survives expansion, however many occurrences the template had. */
  lemma ExpandLeavesNoTimeVar(template: string, now: Date)
    ensures HasNoTimeVar(ExpandTimeVar(template, now))
  {
    var sd, y, m, d := StandardDate(now), FormatYear(now.year), FormatMonth(now.month), FormatDay(now.day);
    var s1 := ReplaceAll(template, "{d}", sd);
    var s2 := ReplaceAll(s1, "{y}", y);
    var s3 := ReplaceAll(s2, "{m}", m);
    var s4 := ReplaceAll(s3, "{D}", d);
    ReplaceAllRemovesToken(template, "{d}", sd);
    ReplaceAllRemovesToken(s1, "{y}", y);
    ContainsSurvives(s1, "{y}", y, "{d}");
    ReplaceAllRemovesToken(s2, "{m}", m);
    ContainsSurvives(s2, "{m}", m, "{d}");
    ContainsSurvives(s2, "{m}", m, "{y}");
    ReplaceAllRemovesToken(s3, "{D}", d);
    ContainsSurvives(s3, "{D}", d, "{d}");
    ContainsSurvives(s3, "{D}", d, "{y}");
    ContainsSurvives(s3, "{D}", d, "{m}");
  }

  /** A template is returned unchanged exactly when it holds none of the four time variables. */
  lemma ExpandUnchangedIff(template: string, now: Date)
    ensures ExpandTimeVar(template, now) == template <==> HasNoTimeVar(template)
  {
    if HasNoTimeVar(template) {
      ReplaceAllWithoutToken(template, "{d}", StandardDate(now));
      ReplaceAllWithoutToken(template, "{y}", FormatYear(now.year));
      ReplaceAllWithoutToken(template, "{m}", FormatMonth(now.month));
      ReplaceAllWithoutToken(template, "{D}", FormatDay(now.day));
    }
    ExpandLeavesNoTimeVar(template, now);
  }

  /** Expanding an expanded template again on the same date changes nothing. */
  lemma ExpandIdempotent(template: string, now: Date)
    ensures ExpandTimeVar(ExpandTimeVar(template, now), now) == ExpandTimeVar(template, now)
  {
    ExpandLeavesNoTimeVar(template, now);
    ExpandUnchangedIff(ExpandTimeVar(template, now), now);
  }

  // ---------------------------------------------------------------------------
  // Expansion around one time variable
  // ---------------------------------------------------------------------------

  /** A text that a pass cannot scan across: a time variable or a non-empty run of digits. */
  predicate IsBarrier(m: string)
  {
    IsTimeVar(m) || (|m| > 0 && AllDigits(m))
  }

  /** The shape shared by the four time variables: `{`, a letter, `}`. */
  predicate IsBraced(t: string)
  {
    |t| == 3 && t[0] == '{' && t[1] != '{' && !IsDigit(t[1]) && t[2] != '{' && !IsDigit(t[2])
  }

  /** An occurrence of a braced token cannot start in `a` and end in `rest` when `rest` begins
      with `{` or a digit. */
  lemma NoStraddle(a: string, rest: string, token: string)
    requires IsBraced(token) && 0 < |a| && |rest| > 0 && (rest[0] == '{' || IsDigit(rest[0]))
    requires !StartsWith(a, token)
    ensures !StartsWith(a + rest, token)
  {
    var s := a + rest;
    if |s| >= 3 {
      if |a| >= 3 {
        assert s[..3] == a[..3];
      } else {
        assert s[..3][|a|] == rest[0] != token[|a|];
      }
    }
  }

  /** A token at the front of `a` is replaced, in `a` alone and in `a + rest`. */
  lemma TokenAtFront(a: string, rest: string, token: string, rep: string)
    requires IsBraced(token) && StartsWith(a, token)
    ensures ReplaceAll(a + rest, token, rep) == rep + ReplaceAll(a[3..] + rest, token, rep)
    ensures ReplaceAll(a, token, rep) == rep + ReplaceAll(a[3..], token, rep)
  {
    var s := a + rest;
    assert s[..3] == a[..3];
    assert s[3..] == a[3..] + rest;
  }

  /** Otherwise the first character of `a` is copied, in `a` alone and in `a + rest`. */
  lemma CopiedAtFront(a: string, rest: string, token: string, rep: string)
    requires IsBraced(token) && |a| > 0 && !StartsWith(a, token)
    requires |rest| > 0 && (rest[0] == '{' || IsDigit(rest[0]))
    ensures ReplaceAll(a + rest, token, rep) == [a[0]] + ReplaceAll(a[1..] + rest, token, rep)
    ensures ReplaceAll(a, token, rep) == [a[0]] + ReplaceAll(a[1..], token, rep)
  {
    var s := a + rest;
    NoStraddle(a, rest, token);
    CopyHead(s, token, rep);
    assert s[1..] == a[1..] + rest;
    CopyHead(a, token, rep);
  }

  /** So a pass over `a + rest` is a pass over `a` followed by one over `rest`. */
  lemma {:induction false} SplitBefore(a: string, rest: string, token: string, rep: string)
    requires IsBraced(token) && |rest| > 0 && (rest[0] == '{' || IsDigit(rest[0]))
    ensures ReplaceAll(a + rest, token, rep) == ReplaceAll(a, token, rep) + ReplaceAll(rest, token, rep)
    decreases |a|
  {
    var rr := ReplaceAll(rest, token, rep);
    if a == [] {
      assert a + rest == rest;
    } else if StartsWith(a, token) {
      var tail := a[3..];
      TokenAtFront(a, rest, token, rep);
      SplitBefore(tail, rest, token, rep);
      assert rep + (ReplaceAll(tail, token, rep) + rr) == rep + ReplaceAll(tail, token, rep) + rr;
    } else {
      var tail := a[1..];
      CopiedAtFront(a, rest, token, rep);
      SplitBefore(tail, rest, token, rep);
      assert [a[0]] + (ReplaceAll(tail, token, rep) + rr) == [a[0]] + ReplaceAll(tail, token, rep) + rr;
    }
  }

  /** A pass over `m + b` with a barrier `m` replaces `m` if it is the token and goes on with `b`. */
  lemma PassFromBarrier(m: string, b: string, token: string, rep: string)
    requires IsBraced(token) && IsBarrier(m)
    ensures ReplaceAll(m + b, token, rep) == Substituted(m, token, rep) + ReplaceAll(b, token, rep)
  {
    if IsTimeVar(m) {
      SkipPiece(m, b, token, rep);
    } else {
      DigitsArePlain(m);
      SkipPlain(m, b, token, rep);
      assert m != token by { assert IsDigit(m[0]); }
    }
  }

  /** One pass over `a + m + b` with a barrier `m` treats the three parts separately. */
  lemma OnePass(a: string, m: string, b: string, token: string, rep: string)
    requires IsBraced(token) && IsBarrier(m)
    ensures ReplaceAll(a + m + b, token, rep) ==
            ReplaceAll(a, token, rep) + Substituted(m, token, rep) + ReplaceAll(b, token, rep)
  {
    var rest := m + b;
    assert a + m + b == a + rest;
    assert rest[0] == m[0];
    SplitBefore(a, rest, token, rep);
    PassFromBarrier(m, b, token, rep);
  }

  /** A pass with a non-empty digit replacement turns a barrier into a barrier. */
  lemma SubstitutedBarrier(m: string, token: string, rep: string)
    requires IsBarrier(m) && |rep| > 0 && AllDigits(rep)
    ensures IsBarrier(Substituted(m, token, rep))
  {
  }

  /** What expansion on `now` makes of one time variable (any other text is left as it is). */
  function Field(p: string, now: Date): string
  {
    if p == "{d}" then StandardDate(now)
    else if p == "{y}" then FormatYear(now.year)
    else if p == "{m}" then FormatMonth(now.month)
    else if p == "{D}" then FormatDay(now.day)
    else p
  }

  /** The four passes, one after the other, turn a piece into its field. */
  lemma FourPassesGiveField(p: string, now: Date)
    ensures Substituted(Substituted(Substituted(Substituted(p, "{d}", StandardDate(now)),
              "{y}", FormatYear(now.year)), "{m}", FormatMonth(now.month)), "{D}", FormatDay(now.day))
            == Field(p, now)
  {
  }

  /** A pass with a non-empty digit replacement keeps a text that starts with `{` or a digit
      starting with `{` or a digit. */
  lemma PassKeepsHead(rest: string, token: string, rep: string)
    requires IsBraced(token) && |rest| > 0 && (rest[0] == '{' || IsDigit(rest[0]))
    requires |rep| > 0 && AllDigits(rep)
    ensures var r := ReplaceAll(rest, token, rep); |r| > 0 && (r[0] == '{' || IsDigit(r[0]))
  {
    if !StartsWith(rest, token) {
      CopyHead(rest, token, rep);
    }
  }

  /** Expansion of `a + rest`, where `rest` starts with `{` or a digit, is the expansion of `a`
      followed by the expansion of `rest`: no time variable straddles the boundary. */
  lemma ExpandSplits(a: string, rest: string, now: Date)
    requires |rest| > 0 && (rest[0] == '{' || IsDigit(rest[0]))
    ensures ExpandTimeVar(a + rest, now) == ExpandTimeVar(a, now) + ExpandTimeVar(rest, now)
  {
    var sd, y, m, d := StandardDate(now), FormatYear(now.year), FormatMonth(now.month), FormatDay(now.day);
    var a1, r1 := ReplaceAll(a, "{d}", sd), ReplaceAll(rest, "{d}", sd);
    SplitBefore(a, rest, "{d}", sd);
    PassKeepsHead(rest, "{d}", sd);
    var a2, r2 := ReplaceAll(a1, "{y}", y), ReplaceAll(r1, "{y}", y);
    SplitBefore(a1, r1, "{y}", y);
    PassKeepsHead(r1, "{y}", y);
    var a3, r3 := ReplaceAll(a2, "{m}", m), ReplaceAll(r2, "{m}", m);
    SplitBefore(a2, r2, "{m}", m);
    PassKeepsHead(r2, "{m}", m);
    SplitBefore(a3, r3, "{D}", d);
  }

  /** A time variable at the front becomes its field, and the rest expands on its own. */
  lemma ExpandFrontVar(v: string, b: string, now: Date)
    requires IsTimeVar(v)
    ensures ExpandTimeVar(v + b, now) == Field(v, now) + ExpandTimeVar(b, now)
  {
    var sd, y, m, d := StandardDate(now), FormatYear(now.year), FormatMonth(now.month), FormatDay(now.day);
    var m1, b1 := Substituted(v, "{d}", sd), ReplaceAll(b, "{d}", sd);
    PassFromBarrier(v, b, "{d}", sd);
    SubstitutedBarrier(v, "{d}", sd);
    var m2, b2 := Substituted(m1, "{y}", y), ReplaceAll(b1, "{y}", y);
    PassFromBarrier(m1, b1, "{y}", y);
    SubstitutedBarrier(m1, "{y}", y);
    var m3, b3 := Substituted(m2, "{m}", m), ReplaceAll(b2, "{m}", m);
    PassFromBarrier(m2, b2, "{m}", m);
    SubstitutedBarrier(m2, "{m}", m);
    PassFromBarrier(m3, b3, "{D}", d);
    FourPassesGiveField(v, now);
  }

  /** In any template, a time variable becomes its field and the texts on either side expand on
      their own: `{d}` becomes the 8-digit stamp, `{y}` the year, `{m}` the month, `{D}` the day. */
  lemma ExpandOneVar(a: string, v: string, b: string, now: Date)
    requires IsTimeVar(v)
    ensures ExpandTimeVar(a + v + b, now) == ExpandTimeVar(a, now) + Field(v, now) + ExpandTimeVar(b, now)
  {
    assert a + v + b == a + (v + b);
    assert (v + b)[0] == '{';
    ExpandSplits(a, v + b, now);
    ExpandFrontVar(v, b, now);
  }

  /** A text without `{` is left as it is by expansion. */
  lemma PlainExpandsToItself(a: string, now: Date)
    requires '{' !in a
    ensures ExpandTimeVar(a, now) == a
  {
    PlainUnchanged(a, "{d}", StandardDate(now));
    PlainUnchanged(a, "{y}", FormatYear(now.year));
    PlainUnchanged(a, "{m}", FormatMonth(now.month));
    PlainUnchanged(a, "{D}", FormatDay(now.day));
  }

  /** Three time variables in one template become their fields in place, and the texts around
      them expand on their own. */
  lemma ExpandThreeVars(a: string, u: string, b: string, v: string, c: string, w: string, e: string, now: Date)
    requires IsTimeVar(u) && IsTimeVar(v) && IsTimeVar(w)
    ensures ExpandTimeVar(a + u + (b + v + (c + w + e)), now) ==
            ExpandTimeVar(a, now) + Field(u, now) + (ExpandTimeVar(b, now) + Field(v, now) +
            (ExpandTimeVar(c, now) + Field(w, now) + ExpandTimeVar(e, now)))
  {
    ExpandOneVar(c, w, e, now);
    ExpandOneVar(b, v, c + w + e, now);
    ExpandOneVar(a, u, b + v + (c + w + e), now);
  }

  /** `{y}`, `{m}` and `{D}` in one template become the year, month and day fields in place, and
      the texts between them expand on their own. */
  lemma ExpandYearMonthDay(a: string, b: string, c: string, e: string, now: Date)
    ensures ExpandTimeVar(a + "{y}" + b + "{m}" + c + "{D}" + e, now) ==
            ExpandTimeVar(a, now) + FormatYear(now.year) + ExpandTimeVar(b, now) + FormatMonth(now.month) +
            ExpandTimeVar(c, now) + FormatDay(now.day) + ExpandTimeVar(e, now)
  {
    var y, m, d := FormatYear(now.year), FormatMonth(now.month), FormatDay(now.day);
    var ea, eb, ec, ee := ExpandTimeVar(a, now), ExpandTimeVar(b, now), ExpandTimeVar(c, now), ExpandTimeVar(e, now);
    assert a + "{y}" + b + "{m}" + c + "{D}" + e == a + "{y}" + (b + "{m}" + (c + "{D}" + e));
    ExpandThreeVars(a, "{y}", b, "{m}", c, "{D}", e, now);
    assert ea + y + (eb + m + (ec + d + ee)) == ea + y + eb + m + ec + d + ee;
  }

  /** Three time variables at the front become their fields one after the other. */
  lemma ExpandThreeFrontVars(u: string, v: string, w: string, b: string, now: Date)
    requires IsTimeVar(u) && IsTimeVar(v) && IsTimeVar(w)
    ensures ExpandTimeVar(u + (v + (w + b)), now) ==
            Field(u, now) + (Field(v, now) + (Field(w, now) + ExpandTimeVar(b, now)))
  {
    ExpandFrontVar(w, b, now);
    ExpandFrontVar(v, w + b, now);
    ExpandFrontVar(u, v + (w + b), now);
  }

  /** `{y}{m}{D}` at the front of a text expands to the 8-digit stamp. */
  lemma ExpandStampVars(b: string, now: Date)
    ensures ExpandTimeVar("{y}{m}{D}" + b, now) == StandardDate(now) + ExpandTimeVar(b, now)
  {
    var y, m, d := FormatYear(now.year), FormatMonth(now.month), FormatDay(now.day);
    var eb := ExpandTimeVar(b, now);
    assert "{y}{m}{D}" + b == "{y}" + ("{m}" + ("{D}" + b));
    ExpandThreeFrontVars("{y}", "{m}", "{D}", b, now);
    assert y + (m + (d + eb)) == (y + m + d) + eb;
  }

  /** Two texts starting with `{` that expand alike still expand alike after any prefix. */
  lemma ExpandSameAfterPrefix(a: string, x: string, y: string, now: Date)
    requires |x| > 0 && |y| > 0 && x[0] == '{' && y[0] == '{'
    requires ExpandTimeVar(x, now) == ExpandTimeVar(y, now)
    ensures ExpandTimeVar(a + x, now) == ExpandTimeVar(a + y, now)
  {
    ExpandSplits(a, x, now);
    ExpandSplits(a, y, now);
  }

  /** In any template, `{d}` expands to the same text as `{y}{m}{D}`: `%Y%m%d` is `%Y` then `%m`
      then `%d`. */
  lemma DateVarIsYearMonthDay(a: string, b: string, now: Date)
    ensures ExpandTimeVar(a + "{d}" + b, now) == ExpandTimeVar(a + "{y}{m}{D}" + b, now)
  {
    var x, y := "{d}" + b, "{y}{m}{D}" + b;
    ExpandFrontVar("{d}", b, now);
    ExpandStampVars(b, now);
    assert a + "{d}" + b == a + x;
    assert a + "{y}{m}{D}" + b == a + y;
    ExpandSameAfterPrefix(a, x, y, now);
  }

  /** The expansions the module's own tests expect, on any date. */
  lemma ExpandTestTemplates(now: Date)
    ensures ExpandTimeVar("mylog{d}.log", now) == "mylog" + StandardDate(now) + ".log"
    ensures ExpandTimeVar("mylog{y}.log", now) == "mylog" + FormatYear(now.year) + ".log"
    ensures ExpandTimeVar("mylog{m}.log", now) == "mylog" + FormatMonth(now.month) + ".log"
    ensures ExpandTimeVar("mylog{D}.log", now) == "mylog" + FormatDay(now.day) + ".log"
    ensures ExpandTimeVar("mylog{y}-{m}-{D}.log", now) ==
            "mylog" + FormatYear(now.year) + "-" + FormatMonth(now.month) + "-" + FormatDay(now.day) + ".log"
  {
    assert "mylog{d}.log" == "mylog" + "{d}" + ".log";
    assert "mylog{y}.log" == "mylog" + "{y}" + ".log";
    assert "mylog{m}.log" == "mylog" + "{m}" + ".log";
    assert "mylog{D}.log" == "mylog" + "{D}" + ".log";
    assert "mylog{y}-{m}-{D}.log" == "mylog" + "{y}" + "-" + "{m}" + "-" + "{D}" + ".log";
    PlainExpandsToItself("mylog", now);
    PlainExpandsToItself(".log", now);
    PlainExpandsToItself("-", now);
    ExpandOneVar("mylog", "{d}", ".log", now);
    ExpandOneVar("mylog", "{y}", ".log", now);
    ExpandOneVar("mylog", "{m}", ".log", now);
    ExpandOneVar("mylog", "{D}", ".log", now);
    ExpandYearMonthDay("mylog", "-", "-", ".log", now);
  }

  lemma PaddedExamples()
    ensures Padded(2023, 4) == "2023" && Padded(3, 2) == "03" && Padded(6, 2) == "06"
  {
    assert Padded(2, 1) == "2";
    assert Padded(20, 2) == "20";
    assert Padded(202, 3) == "202";
    assert Padded(0, 1) == "0";
  }

  /** chrono prints 2023-03-06 as "20230306". */
  lemma StandardDateExample()
    ensures StandardDate(Date(2023, 3, 6)) == "20230306"
  {
    PaddedExamples();
    assert FormatYear(2023) == "2023";
    assert FormatMonth(3) == "03";
    assert FormatDay(6) == "06";
  }
}
