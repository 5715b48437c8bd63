/**
 * The Python string operations the scripts rely on, written out over
 * `string` (= `seq<char>`): the substring test `p in s`, `s.find(p, start)`,
 * `s.replace(p, r)` for a non-empty `p`, ASCII `lower`/`upper`, `s.split(c)`
 * and `c.join(parts)` for a one-character separator, and `str(n)` for a
 * natural number, and the one regular-expression shape the scripts use
 * (a literal prefix, a run of decimal digits, a literal suffix), each with
 * the lemmas the rest of the model uses.
 */
module Text {
  import opened Wrappers

  /** `p` occurs in `s` starting at index `i`. */
  predicate OccursAt(s: string, p: string, i: int) {
    0 <= i && i + |p| <= |s| && s[i..i + |p|] == p
  }

  /** `p[j..]` matches `s` from index `i + j` on, compared one character at a
      time. */
  predicate MatchesFrom(s: string, p: string, i: nat, j: nat)
    requires j <= |p|
    decreases |p| - j
  {
    j == |p| || (i + j < |s| && s[i + j] == p[j] && MatchesFrom(s, p, i, j + 1))
  }

  lemma {:induction false} MatchesFromSlice(s: string, p: string, i: nat, j: nat)
    requires j <= |p| && i + |p| <= |s|
    decreases |p| - j
    ensures MatchesFrom(s, p, i, j) <==> s[i + j..i + |p|] == p[j..]
  {
    if j < |p| {
      MatchesFromSlice(s, p, i, j + 1);
      assert s[i + j..i + |p|] == [s[i + j]] + s[i + j + 1..i + |p|];
      assert p[j..] == [p[j]] + p[j + 1..];
    }
  }

  /** The character-by-character comparison decides an occurrence. */
  lemma MatchesFromOccurs(s: string, p: string, i: nat)
    ensures (i + |p| <= |s| && MatchesFrom(s, p, i, 0)) <==> OccursAt(s, p, i)
  {
    if i + |p| <= |s| {
      MatchesFromSlice(s, p, i, 0);
    }
  }

  /** Python's `s.find(p, start)`: the lowest index at or after `start` where
      `p` occurs, or -1 when there is none. */
  function IndexOf(s: string, p: string, start: nat): (r: int)
    decreases |s| - start
    ensures r == -1 || (start <= r && OccursAt(s, p, r))
  {
    if start + |p| > |s| then -1
    else if MatchesFrom(s, p, start, 0) then MatchesFromSlice(s, p, start, 0); start
    else IndexOf(s, p, start + 1)
  }

  /** `find` returns the first occurrence: there is none before it, and -1
      means there is none at all. */
  lemma {:induction false} IndexOfFirst(s: string, p: string, start: nat)
    decreases |s| - start
    ensures IndexOf(s, p, start) == -1 ==> forall i :: start <= i ==> !OccursAt(s, p, i)
    ensures IndexOf(s, p, start) >= 0 ==>
      forall i :: start <= i < IndexOf(s, p, start) ==> !OccursAt(s, p, i)
  {
    if start + |p| <= |s| {
      MatchesFromSlice(s, p, start, 0);
      if !MatchesFrom(s, p, start, 0) {
        IndexOfFirst(s, p, start + 1);
      }
    }
  }

  /** Matching only looks forward: text in front of the match position does
      not matter. */
  lemma {:induction false} MatchesFromShift(a: string, b: string, p: string, i: nat, j: nat)
    requires j <= |p|
    decreases |p| - j
    ensures MatchesFrom(a + b, p, |a| + i, j) <==> MatchesFrom(b, p, i, j)
  {
    if j < |p| {
      MatchesFromShift(a, b, p, i, j + 1);
      if i + j < |b| {
        assert (a + b)[|a| + i + j] == b[i + j];
      }
    }
  }

  /** Searching `a + b` from inside `b` finds what searching `b` finds,
      shifted by `|a|`. */
  lemma {:induction false} IndexOfShift(a: string, b: string, p: string, start: nat)
    decreases |b| - start
    ensures IndexOf(a + b, p, |a| + start) ==
      if IndexOf(b, p, start) < 0 then -1 else |a| + IndexOf(b, p, start)
  {
    if start + |p| <= |b| {
      MatchesFromShift(a, b, p, start, 0);
      if !MatchesFrom(b, p, start, 0) {
        IndexOfShift(a, b, p, start + 1);
      }
    }
  }

  /** The index of the first non-digit of `s` at or after `i`. */
  function DigitsEnd(s: string, i: nat): (e: nat)
    requires i <= |s|
    decreases |s| - i
    ensures i <= e <= |s|
  {
    if i == |s| || !IsDigit(s[i]) then i else DigitsEnd(s, i + 1)
  }

  /** The run found is all digits and cannot be extended. */
  lemma {:induction false} DigitsEndSpec(s: string, i: nat)
    requires i <= |s|
    decreases |s| - i
    ensures forall k :: i <= k < DigitsEnd(s, i) ==> IsDigit(s[k])
    ensures DigitsEnd(s, i) == |s| || !IsDigit(s[DigitsEnd(s, i)])
  {
    if i < |s| && IsDigit(s[i]) {
      DigitsEndSpec(s, i + 1);
    }
  }

  /** Where a match of `pre`, one or more digits (as many as there are) and
      then `suf` ends, when one starts at index `i`. */
  function DigitRunAt(s: string, pre: string, suf: string, i: nat): (m: Option<nat>)
    requires i <= |s|
    ensures m.Some? ==> i + |pre| < m.value <= |s|
  {
    if OccursAt(s, pre, i) then
      var d := DigitsEnd(s, i + |pre|);
      if d > i + |pre| && OccursAt(s, suf, d) then Some(d + |suf|) else None
    else None
  }

  /** `t` is the text of `s` from `o` on. */
  predicate TailAt(s: string, o: nat, t: string) {
    o + |t| == |s| && forall k :: 0 <= k < |t| ==> s[o + k] == t[k]
  }

  /** An occurrence does not depend on text in front of it. */
  lemma OccursAtTail(s: string, o: nat, t: string, p: string, i: nat)
    requires TailAt(s, o, t)
    ensures OccursAt(s, p, o + i) <==> OccursAt(t, p, i)
  {
    if i + |p| <= |t| {
      var x, y := s[o + i..o + i + |p|], t[i..i + |p|];
      forall k | 0 <= k < |p|
        ensures x[k] == y[k]
      {
        assert t[i + k] == s[o + (i + k)];
      }
      assert x == y;
    }
  }

  /** `re.sub` of the pattern `pre` + `\d+` + `suf` (both literal) by `repl`,
      on `s[i..]`: left to right, each match replaced and scanning resumed
      after it. */
  function DigitRunFrom(s: string, pre: string, suf: string, repl: string, i: nat): string
    requires i <= |s|
    decreases |s| - i
  {
    if i == |s| then []
    else
      match DigitRunAt(s, pre, suf, i)
      case Some(e) => repl + DigitRunFrom(s, pre, suf, repl, e)
      case None => [s[i]] + DigitRunFrom(s, pre, suf, repl, i + 1)
  }

  function DigitRunSub(s: string, pre: string, suf: string, repl: string): string {
    DigitRunFrom(s, pre, suf, repl, 0)
  }

  /** Without a match the rewrite leaves the text alone. */
  lemma {:induction false} DigitRunFromAbsent(s: string, pre: string, suf: string, repl: string, i: nat)
    requires i <= |s|
    requires forall j :: i <= j <= |s| ==> DigitRunAt(s, pre, suf, j).None?
    decreases |s| - i
    ensures DigitRunFrom(s, pre, suf, repl, i) == s[i..]
  {
    if i < |s| {
      DigitRunFromAbsent(s, pre, suf, repl, i + 1);
      assert s[i..] == [s[i]] + s[i + 1..];
    }
  }

  lemma {:induction false} DigitsEndShift(a: string, b: string, i: nat)
    requires i <= |b|
    decreases |b| - i
    ensures DigitsEnd(a + b, |a| + i) == |a| + DigitsEnd(b, i)
  {
    if i < |b| {
      assert (a + b)[|a| + i] == b[i];
      DigitsEndShift(a, b, i + 1);
    }
  }

  lemma {:induction false} DigitsEndTail(s: string, o: nat, t: string, i: nat)
    requires TailAt(s, o, t) && i <= |t|
    decreases |t| - i
    ensures DigitsEnd(s, o + i) == o + DigitsEnd(t, i)
  {
    if i < |t| {
      assert s[o + i] == t[i];
      DigitsEndTail(s, o, t, i + 1);
    }
  }

  lemma DigitRunAtTail(s: string, o: nat, t: string, pre: string, suf: string, i: nat)
    requires TailAt(s, o, t) && i <= |t|
    ensures DigitRunAt(t, pre, suf, i).None? ==> DigitRunAt(s, pre, suf, o + i).None?
    ensures DigitRunAt(t, pre, suf, i).Some? ==>
      DigitRunAt(s, pre, suf, o + i) == Some(o + DigitRunAt(t, pre, suf, i).value)
  {
    OccursAtTail(s, o, t, pre, i);
    if OccursAt(t, pre, i) {
      DigitsEndTail(s, o, t, i + |pre|);
      OccursAtTail(s, o, t, suf, DigitsEnd(t, i + |pre|));
    }
  }

  /** The rewrite only looks forward: text in front of the scan position does
      not change what happens after it. */
  lemma DigitRunFromShift(a: string, b: string, pre: string, suf: string,
                          repl: string, i: nat)
    requires i <= |b|
    ensures DigitRunFrom(a + b, pre, suf, repl, |a| + i) == DigitRunFrom(b, pre, suf, repl, i)
  {
    TailAtAppend(a, b);
    DigitRunFromTail(a + b, |a|, b, pre, suf, repl, i);
  }

  lemma {:induction false} DigitRunFromTail(s: string, o: nat, t: string, pre: string, suf: string,
                                            repl: string, i: nat)
    requires TailAt(s, o, t) && i <= |t|
    decreases |t| - i
    ensures DigitRunFrom(s, pre, suf, repl, o + i) == DigitRunFrom(t, pre, suf, repl, i)
  {
    if i < |t| {
      DigitRunAtTail(s, o, t, pre, suf, i);
      match DigitRunAt(t, pre, suf, i)
      case Some(e) =>
        DigitRunFromMatch(s, pre, suf, repl, o + i, o + e);
        DigitRunFromMatch(t, pre, suf, repl, i, e);
        DigitRunFromTail(s, o, t, pre, suf, repl, e);
      case None =>
        DigitRunFromNoMatch(s, pre, suf, repl, o + i);
        DigitRunFromNoMatch(t, pre, suf, repl, i);
        assert s[o + i] == t[i];
        DigitRunFromTail(s, o, t, pre, suf, repl, i + 1);
    }
  }

  lemma DigitRunFromMatch(s: string, pre: string, suf: string, repl: string, i: nat, e: nat)
    requires i < |s| && DigitRunAt(s, pre, suf, i) == Some(e)
    ensures e <= |s|
    ensures DigitRunFrom(s, pre, suf, repl, i) == repl + DigitRunFrom(s, pre, suf, repl, e)
  {
  }

  lemma DigitRunFromNoMatch(s: string, pre: string, suf: string, repl: string, i: nat)
    requires i < |s| && DigitRunAt(s, pre, suf, i).None?
    ensures DigitRunFrom(s, pre, suf, repl, i) == [s[i]] + DigitRunFrom(s, pre, suf, repl, i + 1)
  {
  }

  /** Positions without a match are copied as they are. */
  lemma {:induction false} DigitRunFromSkip(s: string, pre: string, suf: string, repl: string,
                                            i: nat, m: nat)
    requires i <= m <= |s|
    requires forall j :: i <= j < m ==> DigitRunAt(s, pre, suf, j).None?
    decreases m - i
    ensures DigitRunFrom(s, pre, suf, repl, i) == s[i..m] + DigitRunFrom(s, pre, suf, repl, m)
  {
    if i < m {
      DigitRunFromNoMatch(s, pre, suf, repl, i);
      DigitRunFromSkip(s, pre, suf, repl, i + 1, m);
      ConsSlice(s, i, m, DigitRunFrom(s, pre, suf, repl, m));
    }
  }

  lemma ConsSlice(s: string, i: nat, m: nat, t: string)
    requires i < m <= |s|
    ensures [s[i]] + (s[i + 1..m] + t) == s[i..m] + t
  {
    assert [s[i]] + s[i + 1..m] == s[i..m];
  }

  /** A non-empty run of decimal digits, as `\d+` matches. */
  predicate IsNumeral(d: string) {
    |d| >= 1 && forall k :: 0 <= k < |d| ==> IsDigit(d[k])
  }

  /** `str(n)` is a numeral. */
  lemma DecimalIsNumeral(n: nat)
    ensures IsNumeral(Decimal(n))
  {
    DecimalDigits(n);
  }

  /** A setting `pre` + digits + `suf` at the front of the text becomes
      `repl`, whatever the digits, and the rest of the text is rewritten on
      its own. The digit run must end where `suf` (or, when `suf` is empty,
      the rest) begins. */
  lemma DigitRunSetting(pre: string, d: string, suf: string, rest: string, repl: string)
    requires IsNumeral(d)
    requires if suf == [] then rest == [] || !IsDigit(rest[0]) else !IsDigit(suf[0])
    ensures DigitRunSub(pre + d + suf + rest, pre, suf, repl)
      == repl + DigitRunSub(rest, pre, suf, repl)
  {
    var x := pre + d + suf;
    DigitRunAtSetting(pre, d, suf, rest);
    TailAtAppend(x, rest);
    DigitRunMatchThenTail(x + rest, |x|, rest, pre, suf, repl);
  }

  /** A match at the front that ends where the tail `t` begins: the rewrite
      is `repl` followed by the rewrite of `t`. */
  lemma DigitRunMatchThenTail(s: string, e: nat, t: string, pre: string, suf: string, repl: string)
    requires TailAt(s, e, t) && 0 < |s| && DigitRunAt(s, pre, suf, 0) == Some(e)
    ensures DigitRunSub(s, pre, suf, repl) == repl + DigitRunSub(t, pre, suf, repl)
  {
    DigitRunFromMatch(s, pre, suf, repl, 0, e);
    DigitRunFromTail(s, e, t, pre, suf, repl, 0);
  }

  lemma TailAtAppend(a: string, b: string)
    ensures TailAt(a + b, |a|, b)
  {
  }

  /** When nothing before it starts a match, the first setting is replaced
      and the text before it is kept. */
  lemma DigitRunAfter(before: string, pre: string, d: string, suf: string, rest: string,
                      repl: string)
    requires IsNumeral(d)
    requires if suf == [] then rest == [] || !IsDigit(rest[0]) else !IsDigit(suf[0])
    requires forall j :: 0 <= j < |before| ==>
      DigitRunAt(before + pre + d + suf + rest, pre, suf, j).None?
    ensures DigitRunSub(before + pre + d + suf + rest, pre, suf, repl)
      == before + repl + DigitRunSub(rest, pre, suf, repl)
  {
    var x := pre + d + suf + rest;
    assert before + x == before + pre + d + suf + rest;
    DigitRunKeepsPrefix(before, x, pre, suf, repl);
    DigitRunSetting(pre, d, suf, rest, repl);
  }

  /** A prefix in which no match starts comes through unchanged. */
  lemma DigitRunKeepsPrefix(before: string, x: string, pre: string, suf: string, repl: string)
    requires forall j :: 0 <= j < |before| ==> DigitRunAt(before + x, pre, suf, j).None?
    ensures DigitRunSub(before + x, pre, suf, repl) == before + DigitRunSub(x, pre, suf, repl)
  {
    var s := before + x;
    DigitRunFromSkip(s, pre, suf, repl, 0, |before|);
    assert s[0..|before|] == before;
    DigitRunFromShift(before, x, pre, suf, repl, 0);
  }

  lemma DigitRunAtSetting(pre: string, d: string, suf: string, rest: string)
    requires IsNumeral(d)
    requires if suf == [] then rest == [] || !IsDigit(rest[0]) else !IsDigit(suf[0])
    ensures DigitRunAt(pre + d + suf + rest, pre, suf, 0) == Some(|pre| + |d| + |suf|)
  {
    var s := pre + d + suf + rest;
    DigitsEndSetting(pre, d, suf, rest);
    assert OccursAt(s, pre, 0) by {
      assert s[..|pre|] == pre;
    }
    assert OccursAt(s, suf, |pre| + |d|) by {
      assert s[|pre| + |d|..|pre| + |d| + |suf|] == suf;
    }
  }

  /** The digit run of a setting is exactly the number. */
  lemma DigitsEndSetting(pre: string, d: string, suf: string, rest: string)
    requires forall k :: 0 <= k < |d| ==> IsDigit(d[k])
    requires if suf == [] then rest == [] || !IsDigit(rest[0]) else !IsDigit(suf[0])
    ensures DigitsEnd(pre + d + suf + rest, |pre|) == |pre| + |d|
  {
    var t := suf + rest;
    assert t == [] || !IsDigit(t[0]) by {
      if suf != [] {
        assert t[0] == suf[0];
      }
    }
    DigitsEndOfNumber(d, t);
    DigitsEndShift(pre, d + t, 0);
    assert pre + d + suf + rest == pre + (d + t);
  }

  lemma {:induction false} DigitsEndOfNumber(d: string, t: string)
    requires forall k :: 0 <= k < |d| ==> IsDigit(d[k])
    requires t == [] || !IsDigit(t[0])
    ensures DigitsEnd(d + t, 0) == |d|
  {
    DigitsEndFrom(d + t, 0, |d|);
  }

  lemma {:induction false} DigitsEndFrom(s: string, i: nat, e: nat)
    requires i <= e <= |s|
    requires forall k :: i <= k < e ==> IsDigit(s[k])
    requires e == |s| || !IsDigit(s[e])
    decreases e - i
    ensures DigitsEnd(s, i) == e
  {
    if i < e {
      DigitsEndFrom(s, i + 1, e);
    }
  }

  /** Python's `p in s`: `p` occurs somewhere in `s`. */
  predicate Contains(s: string, p: string) {
    exists i | 0 <= i <= |s| - |p| :: OccursAt(s, p, i)
  }

  /** `p in s` holds exactly when `s.find(p)` finds it. */
  lemma ContainsFind(s: string, p: string)
    ensures Contains(s, p) <==> IndexOf(s, p, 0) >= 0
  {
    IndexOfFirst(s, p, 0);
  }

  lemma ContainsAt(s: string, p: string, i: int)
    requires OccursAt(s, p, i)
    ensures Contains(s, p)
  {
  }

  /** Text wrapped around an occurrence keeps it. */
  lemma ContainsWithin(a: string, s: string, b: string, p: string)
    requires Contains(s, p)
    ensures Contains(a + s + b, p)
  {
    var i :| 0 <= i <= |s| - |p| && OccursAt(s, p, i);
    assert (a + s + b)[|a| + i..|a| + i + |p|] == s[i..i + |p|];
    ContainsAt(a + s + b, p, |a| + i);
  }

  lemma ContainsSelf(p: string)
    ensures Contains(p, p)
  {
    assert OccursAt(p, p, 0);
  }

  /** One mismatching character rules out an occurrence. */
  lemma MismatchNotOccurs(s: string, p: string, q: int, k: nat)
    requires k < |p| && 0 <= q + k < |s| && s[q + k] != p[k]
    ensures !OccursAt(s, p, q)
  {
    if 0 <= q && q + |p| <= |s| {
      assert s[q..q + |p|][k] == s[q + k];
    }
  }

  /** A string lacking one of the characters of `p` cannot contain `p`. */
  lemma MissingCharNotContains(s: string, p: string, k: nat)
    requires k < |p| && p[k] !in s
    ensures !Contains(s, p)
  {
    forall i | 0 <= i <= |s| - |p|
      ensures !OccursAt(s, p, i)
    {
      assert s[i..i + |p|][k] == s[i + k];
    }
  }

  /** Python's `s.replace(p, r)` for a non-empty `p`. */
  function ReplaceAll(s: string, p: string, r: string): string
    requires |p| > 0
  {
    ReplaceFrom(s, p, r, 0)
  }

  /** `s[i..].replace(p, r)`: scanning left to right from index `i`, each
      occurrence of `p` becomes `r` and scanning resumes after it. */
  function ReplaceFrom(s: string, p: string, r: string, i: nat): string
    requires |p| > 0 && i <= |s|
    decreases |s| - i
  {
    if i + |p| > |s| then s[i..]
    else if MatchesFrom(s, p, i, 0) then r + ReplaceFrom(s, p, r, i + |p|)
    else [s[i]] + ReplaceFrom(s, p, r, i + 1)
  }

  lemma {:induction false} ReplaceFromAbsent(s: string, p: string, r: string, i: nat)
    requires |p| > 0 && i <= |s|
    requires forall j :: i <= j ==> !OccursAt(s, p, j)
    ensures ReplaceFrom(s, p, r, i) == s[i..]
    decreases |s| - i
  {
    if i + |p| <= |s| {
      MatchesFromSlice(s, p, i, 0);
      assert !OccursAt(s, p, i);
      ReplaceFromAbsent(s, p, r, i + 1);
      assert s[i..] == [s[i]] + s[i + 1..];
    }
  }

  /** Without an occurrence of `p`, `replace` leaves the text alone. */
  lemma ReplaceAllAbsent(s: string, p: string, r: string)
    requires |p| > 0 && !Contains(s, p)
    ensures ReplaceAll(s, p, r) == s
  {
    IndexOfFirst(s, p, 0);
    ReplaceFromAbsent(s, p, r, 0);
  }

  /** From `i`, `replace` copies the text up to the first occurrence `k`
      that `find` reports, puts `r` there and goes on after it. */
  lemma {:induction false} ReplaceFromAt(s: string, p: string, r: string, i: nat, k: nat)
    requires |p| > 0 && i <= |s| && IndexOf(s, p, i) == k
    ensures k + |p| <= |s|
    ensures ReplaceFrom(s, p, r, i) == s[i..k] + r + ReplaceFrom(s, p, r, k + |p|)
    decreases |s| - i
  {
    if i < k {
      ReplaceFromBeforeFind(s, p, r, i);
      ReplaceFromAt(s, p, r, i + 1, k);
      ConsRegroup(s, i, k, r, ReplaceFrom(s, p, r, k + |p|));
    } else {
      ReplaceFromAtFind(s, p, r, i);
    }
  }

  /** Before the occurrence `find` reports, `replace` copies a character. */
  lemma ReplaceFromBeforeFind(s: string, p: string, r: string, i: nat)
    requires |p| > 0 && i <= |s| && IndexOf(s, p, i) > i
    ensures i < |s| && IndexOf(s, p, i + 1) == IndexOf(s, p, i)
    ensures ReplaceFrom(s, p, r, i) == [s[i]] + ReplaceFrom(s, p, r, i + 1)
  {
  }

  /** At the occurrence `find` reports, `replace` puts `r`. */
  lemma ReplaceFromAtFind(s: string, p: string, r: string, i: nat)
    requires |p| > 0 && i <= |s| && IndexOf(s, p, i) == i
    ensures i + |p| <= |s|
    ensures ReplaceFrom(s, p, r, i) == s[i..i] + r + ReplaceFrom(s, p, r, i + |p|)
  {
    assert MatchesFrom(s, p, i, 0);
    assert s[i..i] + r == r;
  }

  lemma ConsRegroup(s: string, i: nat, k: nat, r: string, t: string)
    requires i < k <= |s|
    ensures [s[i]] + (s[i + 1..k] + r + t) == s[i..k] + r + t
  {
    assert [s[i]] + s[i + 1..k] == s[i..k];
  }

  lemma ReplaceFromMatch(s: string, p: string, r: string, i: nat)
    requires |p| > 0 && OccursAt(s, p, i)
    ensures ReplaceFrom(s, p, r, i) == r + ReplaceFrom(s, p, r, i + |p|)
  {
    MatchesFromSlice(s, p, i, 0);
  }

  /** A character that differs from the pattern rules out a match. */
  lemma ReplaceFromMismatch(s: string, p: string, r: string, i: nat, j: nat)
    requires |p| > 0 && i + |p| <= |s| && j < |p| && s[i + j] != p[j]
    ensures ReplaceFrom(s, p, r, i) == [s[i]] + ReplaceFrom(s, p, r, i + 1)
  {
    assert s[i..i + |p|][j] == s[i + j];
    ReplaceFromNoMatch(s, p, r, i);
  }

  lemma ReplaceFromNoMatch(s: string, p: string, r: string, i: nat)
    requires |p| > 0 && i + |p| <= |s| && !OccursAt(s, p, i)
    ensures ReplaceFrom(s, p, r, i) == [s[i]] + ReplaceFrom(s, p, r, i + 1)
  {
    MatchesFromSlice(s, p, i, 0);
  }

  /** `replace` works left to right: the text before the first occurrence is
      kept, that occurrence becomes `r`, and the rest is processed alike. */
  lemma ReplaceAllFirst(s: string, p: string, r: string)
    requires |p| > 0 && Contains(s, p)
    ensures var k := IndexOf(s, p, 0);
      0 <= k && ReplaceAll(s, p, r) == s[..k] + r + ReplaceFrom(s, p, r, k + |p|)
  {
    ContainsFind(s, p);
    ReplaceFromAt(s, p, r, 0, IndexOf(s, p, 0));
  }

  lemma {:induction false} ReplaceFromSelf(s: string, p: string, i: nat)
    requires |p| > 0 && i <= |s|
    ensures ReplaceFrom(s, p, p, i) == s[i..]
    decreases |s| - i
  {
    if i + |p| <= |s| {
      MatchesFromSlice(s, p, i, 0);
      if MatchesFrom(s, p, i, 0) {
        ReplaceFromSelf(s, p, i + |p|);
        assert s[i..] == s[i..i + |p|] + s[i + |p|..];
      } else {
        ReplaceFromSelf(s, p, i + 1);
        assert s[i..] == [s[i]] + s[i + 1..];
      }
    }
  }

  /** Replacing a pattern by itself changes nothing. */
  lemma ReplaceAllSelf(s: string, p: string)
    requires |p| > 0
    ensures ReplaceAll(s, p, p) == s
  {
    ReplaceFromSelf(s, p, 0);
  }

  /** Once scanning has reached an occurrence of `w` that no match of `p`
      overlaps, `replace` copies the rest of that occurrence unchanged. */
  lemma {:induction false} ReplaceFromCopies(s: string, p: string, r: string, w: string, j: nat, i: nat)
    requires |p| > 0 && OccursAt(s, w, j) && j <= i <= j + |w|
    requires forall q :: OccursAt(s, p, q) ==> q + |p| <= j || q >= j + |w|
    decreases j + |w| - i
    ensures s[i..j + |w|] <= ReplaceFrom(s, p, r, i)
  {
    if i < j + |w| && i + |p| <= |s| {
      MatchesFromOccurs(s, p, i);
      ReplaceFromCopies(s, p, r, w, j, i + 1);
      assert s[i..j + |w|] == [s[i]] + s[i + 1..j + |w|];
    }
  }

  /** `replace` keeps an occurrence of `w` that no match of `p` overlaps. */
  lemma {:induction false} ReplaceFromKeeps(s: string, p: string, r: string, w: string, j: nat, i: nat)
    requires |p| > 0 && OccursAt(s, w, j) && i <= j
    requires forall q :: OccursAt(s, p, q) ==> q + |p| <= j || q >= j + |w|
    decreases j - i
    ensures Contains(ReplaceFrom(s, p, r, i), w)
  {
    if i == j {
      ReplaceFromCopies(s, p, r, w, j, j);
      assert OccursAt(ReplaceFrom(s, p, r, i), w, 0);
    } else if i + |p| > |s| {
      assert OccursAt(s[i..], w, j - i);
    } else if MatchesFrom(s, p, i, 0) {
      MatchesFromOccurs(s, p, i);
      ReplaceFromKeeps(s, p, r, w, j, i + |p|);
      var t := ReplaceFrom(s, p, r, i + |p|);
      ContainsWithin(r, t, [], w);
      assert r + t + [] == r + t;
    } else {
      ReplaceFromKeeps(s, p, r, w, j, i + 1);
      var t := ReplaceFrom(s, p, r, i + 1);
      ContainsWithin([s[i]], t, [], w);
      assert [s[i]] + t + [] == [s[i]] + t;
    }
  }

  /** Once scanning has reached an occurrence of `w` that no match of the
      digit-run pattern overlaps, the rewrite copies the rest of it. */
  lemma {:induction false} DigitRunFromCopies(s: string, pre: string, suf: string, repl: string,
                                              w: string, j: nat, i: nat)
    requires OccursAt(s, w, j) && j <= i <= j + |w|
    requires forall q: nat :: q <= |s| && DigitRunAt(s, pre, suf, q).Some? ==>
      DigitRunAt(s, pre, suf, q).value <= j || q >= j + |w|
    decreases j + |w| - i
    ensures s[i..j + |w|] <= DigitRunFrom(s, pre, suf, repl, i)
  {
    if i < j + |w| {
      DigitRunFromCopies(s, pre, suf, repl, w, j, i + 1);
      assert s[i..j + |w|] == [s[i]] + s[i + 1..j + |w|];
    }
  }

  /** The digit-run rewrite keeps an occurrence of `w` that no match
      overlaps. */
  lemma {:induction false} DigitRunFromKeeps(s: string, pre: string, suf: string, repl: string,
                                             w: string, j: nat, i: nat)
    requires OccursAt(s, w, j) && i <= j
    requires forall q: nat :: q <= |s| && DigitRunAt(s, pre, suf, q).Some? ==>
      DigitRunAt(s, pre, suf, q).value <= j || q >= j + |w|
    decreases j - i
    ensures Contains(DigitRunFrom(s, pre, suf, repl, i), w)
  {
    if i == j {
      DigitRunFromCopies(s, pre, suf, repl, w, j, j);
      assert OccursAt(DigitRunFrom(s, pre, suf, repl, i), w, 0);
    } else {
      match DigitRunAt(s, pre, suf, i)
      case Some(e) =>
        DigitRunFromKeeps(s, pre, suf, repl, w, j, e);
        var t := DigitRunFrom(s, pre, suf, repl, e);
        ContainsWithin(repl, t, [], w);
        assert repl + t + [] == repl + t;
      case None =>
        DigitRunFromKeeps(s, pre, suf, repl, w, j, i + 1);
        var t := DigitRunFrom(s, pre, suf, repl, i + 1);
        ContainsWithin([s[i]], t, [], w);
        assert [s[i]] + t + [] == [s[i]] + t;
    }
  }

  /** Every character of a digit-run match belongs to the prefix, is a
      digit, or belongs to the suffix. */
  /** A digit run starts with its prefix. */
  lemma DigitRunAtOccurs(s: string, pre: string, suf: string, q: nat)
    requires q <= |s| && DigitRunAt(s, pre, suf, q).Some?
    ensures OccursAt(s, pre, q)
  {
  }

  lemma DigitRunAtChars(s: string, pre: string, suf: string, q: nat)
    requires q <= |s| && DigitRunAt(s, pre, suf, q).Some?
    ensures forall k :: q <= k < DigitRunAt(s, pre, suf, q).value ==>
      s[k] in pre || IsDigit(s[k]) || s[k] in suf
  {
    var d := DigitsEnd(s, q + |pre|);
    DigitsEndSpec(s, q + |pre|);
    forall k | q <= k < DigitRunAt(s, pre, suf, q).value
      ensures s[k] in pre || IsDigit(s[k]) || s[k] in suf
    {
      if k < q + |pre| {
        assert s[k] == s[q..q + |pre|][k - q];
      } else if k >= d {
        assert s[k] == s[d..d + |suf|][k - d];
      }
    }
  }

  /** A character outside `w` splits the text: any occurrence of `w` lies
      wholly on one side of it. */
  lemma NotContainsAround(a: string, x: char, b: string, w: string)
    requires x !in w && !Contains(a, w) && !Contains(b, w)
    ensures !Contains(a + [x] + b, w)
  {
    var s := a + [x] + b;
    forall i | 0 <= i <= |s| - |w|
      ensures !OccursAt(s, w, i)
    {
      if i + |w| <= |a| {
        assert s[i..i + |w|] == a[i..i + |w|];
        assert !OccursAt(a, w, i);
      } else if i > |a| {
        assert s[i..i + |w|] == b[i - |a| - 1..i - |a| - 1 + |w|];
        assert !OccursAt(b, w, i - |a| - 1);
      } else {
        assert s[i..i + |w|][|a| - i] == x;
      }
    }
  }

  function LowerChar(c: char): char {
    if 'A' <= c <= 'Z' then (c as int + 32) as char else c
  }

  function UpperChar(c: char): char {
    if 'a' <= c <= 'z' then (c as int - 32) as char else c
  }

  /** `s.lower()` on the ASCII letters. */
  function Lower(s: string): (r: string)
    ensures |r| == |s|
  {
    if s == [] then [] else [LowerChar(s[0])] + Lower(s[1..])
  }

  /** `s.upper()` on the ASCII letters. */
  function Upper(s: string): (r: string)
    ensures |r| == |s|
  {
    if s == [] then [] else [UpperChar(s[0])] + Upper(s[1..])
  }

  lemma {:induction false} LowerAppend(a: string, b: string)
    ensures Lower(a + b) == Lower(a) + Lower(b)
  {
    if a != [] {
      LowerAppend(a[1..], b);
      assert (a + b)[0] == a[0];
      assert (a + b)[1..] == a[1..] + b;
    } else {
      assert a + b == b;
    }
  }

  /** A lower-case letter absent from `s` in both cases is absent from
      `Lower(s)`. */
  lemma {:induction false} LowerLacks(s: string, c: char)
    requires 'a' <= c <= 'z' && c !in s && UpperChar(c) !in s
    ensures c !in Lower(s)
  {
    if s != [] {
      assert s[1..] == s[|s[..1]|..];
      LowerLacks(s[1..], c);
    }
  }

  /** A word lacking one letter of `w` (in either case) does not contain
      `w` once lower-cased. */
  lemma LowerMissing(word: string, w: string, k: nat)
    requires k < |w| && 'a' <= w[k] <= 'z' && w[k] !in word && UpperChar(w[k]) !in word
    ensures !Contains(Lower(word), w)
  {
    LowerLacks(word, w[k]);
    MissingCharNotContains(Lower(word), w, k);
  }

  /** Adding a space and a word lacking one letter of a space-free `w`
      does not make `w` appear in the lower-cased text. */
  lemma LowerWordLacks(a: string, b: string, w: string, k: nat)
    requires ' ' !in w && !Contains(Lower(a), w)
    requires k < |w| && 'a' <= w[k] <= 'z' && w[k] !in b && UpperChar(w[k]) !in b
    ensures !Contains(Lower(a + " " + b), w)
  {
    LowerMissing(b, w, k);
    LowerAppend(a + " ", b);
    LowerAppend(a, " ");
    assert Lower(" ") == [' '];
    NotContainsAround(Lower(a), ' ', Lower(b), w);
  }

  /** Python's `s.split(c)` for a one-character separator: never empty, and a
      trailing separator yields a trailing empty piece. */
  function Split(s: string, c: char): (r: seq<string>)
    decreases |s|
    ensures |r| >= 1
  {
    if s == [] then [""]
    else if s[0] == c then [""] + Split(s[1..], c)
    else
      var rest := Split(s[1..], c);
      [[s[0]] + rest[0]] + rest[1..]
  }

  /** `c.join(parts)` for a one-character glue. */
  function Join(parts: seq<string>, c: char): string
    requires |parts| >= 1
  {
    if |parts| == 1 then parts[0] else parts[0] + [c] + Join(parts[1..], c)
  }

  /** A character that is neither the glue nor in any piece is not in the
      joined text. */
  lemma {:induction false} JoinLacks(parts: seq<string>, c: char, x: char)
    requires |parts| >= 1 && x != c
    requires forall i :: 0 <= i < |parts| ==> x !in parts[i]
    ensures x !in Join(parts, c)
  {
    if |parts| > 1 {
      JoinLacks(parts[1..], c, x);
    }
  }

  /** Gluing the pieces back together gives the original text. */
  lemma {:induction false} JoinSplit(s: string, c: char)
    ensures Join(Split(s, c), c) == s
    decreases |s|
  {
    if s != [] {
      JoinSplit(s[1..], c);
      if s[0] != c {
        var rest := Split(s[1..], c);
        if |rest| > 1 {
          assert ([[s[0]] + rest[0]] + rest[1..])[1..] == rest[1..];
        }
      } else {
        assert ([""] + Split(s[1..], c))[1..] == Split(s[1..], c);
      }
    }
  }

  lemma {:induction false} SplitNoSeparator(a: string, c: char)
    requires c !in a
    ensures Split(a, c) == [a]
    decreases |a|
  {
    if a != [] {
      SplitNoSeparator(a[1..], c);
      assert [a[0]] + a[1..] == a;
    }
  }

  lemma {:induction false} SplitAtSeparator(a: string, c: char, t: string)
    requires c !in a
    ensures Split(a + [c] + t, c) == [a] + Split(t, c)
    decreases |a|
  {
    if a == [] {
      assert a + [c] + t == [c] + t;
      assert ([c] + t)[1..] == t;
    } else {
      assert (a + [c] + t)[1..] == a[1..] + [c] + t;
      SplitAtSeparator(a[1..], c, t);
      assert [a[0]] + a[1..] == a;
    }
  }

  /** Splitting a joined list gives the list back when no piece holds the
      separator. */
  lemma {:induction false} SplitJoin(parts: seq<string>, c: char)
    requires |parts| >= 1
    requires forall i :: 0 <= i < |parts| ==> c !in parts[i]
    ensures Split(Join(parts, c), c) == parts
    decreases |parts|
  {
    if |parts| == 1 {
      SplitNoSeparator(parts[0], c);
    } else {
      SplitJoin(parts[1..], c);
      SplitAtSeparator(parts[0], c, Join(parts[1..], c));
      assert [parts[0]] + parts[1..] == parts;
    }
  }

  /** An ASCII decimal digit. */
  predicate IsDigit(c: char) {
    '0' <= c <= '9'
  }

  function DigitChar(d: nat): (c: char)
    requires d < 10
    ensures IsDigit(c)
  {
    ('0' as int + d) as char
  }

  /** `str(n)` for a natural number. */
  function Decimal(n: nat): (r: string)
    ensures |r| >= 1
  {
    if n < 10 then [DigitChar(n)] else Decimal(n / 10) + [DigitChar(n % 10)]
  }

  /** `int(s)` for a string of decimal digits. */
  function ParseDecimal(s: string): nat
    requires forall i :: 0 <= i < |s| ==> IsDigit(s[i])
  {
    if s == [] then 0
    else
      assert IsDigit(s[|s| - 1]);
      ParseDecimal(s[..|s| - 1]) * 10 + (s[|s| - 1] as int - '0' as int)
  }

  /** `str(n)` consists of digits. */
  lemma {:induction false} DecimalDigits(n: nat)
    ensures forall i :: 0 <= i < |Decimal(n)| ==> IsDigit(Decimal(n)[i])
  {
    if n >= 10 {
      DecimalDigits(n / 10);
    }
  }

  /** `str(n)` consists of digits and reads back as `n`. */
  lemma {:induction false} DecimalRoundTrip(n: nat)
    ensures forall i :: 0 <= i < |Decimal(n)| ==> IsDigit(Decimal(n)[i])
    ensures ParseDecimal(Decimal(n)) == n
  {
    DecimalDigits(n);
    if n >= 10 {
      DecimalRoundTrip(n / 10);
      var d := Decimal(n);
      assert d[..|d| - 1] == Decimal(n / 10);
    }
  }
}
