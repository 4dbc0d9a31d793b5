/** The regular expression matcher of sed: pattern strings, the language they
    denote, and the backtracking search. */
module Sed {
  import opened Options

  // ----- patterns -----

  /** Never stands for a bracket that is not closed: it matches no character */
  datatype Atom = Lit(c: char) | Any | Class(neg: bool, ranges: seq<(char, char)>) | Never

  predicate InRanges(rs: seq<(char, char)>, c: char) { exists i | 0 <= i < |rs| :: rs[i].0 <= c <= rs[i].1 }

  predicate Fits(a: Atom, c: char) {
    match a
    case Lit(d) => c == d
    case Any => true
    case Class(neg, rs) => InRanges(rs, c) != neg
    case Never => false
  }

  /** Done matches the empty string, AtEnd only at the end of the text */
  datatype Regex = Done | AtEnd | One(a: Atom, next: Regex) | Star(a: Atom, next: Regex)

  /** a range lo-hi takes three characters unless the dash is the last before ] */
  predicate IsRange(p: string) { |p| > 2 && p[1] == '-' && p[2] != ']' }

  /** the ranges up to the closing bracket and how many characters they take */
  function Ranges(p: string): (r: Option<(seq<(char, char)>, nat)>)
    ensures r.Some? ==> r.value.1 < |p| && p[r.value.1] == ']'
  {
    if p == "" then None
    else if p[0] == ']' then Some(([], 0))
    else
      var n := if IsRange(p) then 3 else 1;
      Prepend([(p[0], if IsRange(p) then p[2] else p[0])], n, Ranges(p[n..]))
  }

  /** ranges read before, over n characters */
  function Prepend(rs: seq<(char, char)>, n: nat, r: Option<(seq<(char, char)>, nat)>): Option<(seq<(char, char)>, nat)>
  {
    match r case None => None case Some((more, k)) => Some((rs + more, n + k))
  }

  lemma PrependTwice(rs: seq<(char, char)>, m: nat, x: (char, char), n: nat, r: Option<(seq<(char, char)>, nat)>)
    ensures Prepend(rs, m, Prepend([x], n, r)) == Prepend(rs + [x], m + n, r) && Prepend([], 0, r) == r
  {
    if r.Some? {
      var (more, k) := r.value;
      assert rs + ([x] + more) == (rs + [x]) + more && [] + more == more;
    }
  }

  /** whether a class starts with ! or ^ */
  predicate Negated(p: string) { |p| > 1 && (p[1] == '!' || p[1] == '^') }

  /** the atom a pattern starts with, and its length */
  function AtomOf(p: string): (r: (Atom, nat))
    requires p != ""
    ensures 1 <= r.1 <= |p|
  {
    if p[0] == '\\' && |p| > 1 then (Lit(p[1]), 2)
    else if p[0] == '.' then (Any, 1)
    else if p[0] == '[' then
      var n := if Negated(p) then 2 else 1;
      match Ranges(p[n..])
      case None => (Never, 1)
      case Some((rs, k)) => (Class(Negated(p), rs), n + k + 1)
    else (Lit(p[0]), 1)
  }

  // ----- what atoms mean, in characters -----

  lemma {:induction false} PlainRanges(w: string, rest: string, c: char)
    requires ']' !in w && '-' !in w
    ensures Ranges(w + "]" + rest).Some?
    ensures var (rs, n) := Ranges(w + "]" + rest).value; n == |w| && (InRanges(rs, c) <==> c in w)
    decreases |w|
  {
    var p := w + "]" + rest;
    if w != "" {
      assert p[1] == if |w| > 1 then w[1] else ']';
      assert |w| > 1 ==> w[1] in w;
      assert p[1..] == w[1..] + "]" + rest;
      PlainRanges(w[1..], rest, c);
      var more := Ranges(p[1..]).value.0;
      FirstRange(w[0], w[0], more, c);
    }
  }

  lemma FirstRange(lo: char, hi: char, more: seq<(char, char)>, c: char)
    ensures InRanges([(lo, hi)] + more, c) <==> lo <= c <= hi || InRanges(more, c)
  {
    var rs := [(lo, hi)] + more;
    assert rs[0] == (lo, hi);
    if InRanges(more, c) {
      var i :| 0 <= i < |more| && more[i].0 <= c <= more[i].1;
      assert rs[i + 1] == more[i];
    }
  }

  /** a bracket lists the characters it matches */
  lemma ClassLists(w: string, rest: string, c: char)
    requires w != "" && ']' !in w && '-' !in w && w[0] != '!' && w[0] != '^'
    ensures var (a, n) := AtomOf("[" + w + "]" + rest); n == |w| + 2 && (Fits(a, c) <==> c in w)
  {
    var p := "[" + w + "]" + rest;
    assert p[1] == w[0] && p[1..] == w + "]" + rest;
    PlainRanges(w, rest, c);
  }

  /** behind ! or ^ it lists those it does not */
  lemma ClassExcludes(mark: char, w: string, rest: string, c: char)
    requires (mark == '!' || mark == '^') && ']' !in w && '-' !in w
    ensures var (a, n) := AtomOf("[" + [mark] + w + "]" + rest); n == |w| + 3 && (Fits(a, c) <==> c !in w)
  {
    var p := "[" + [mark] + w + "]" + rest;
    assert p[1] == mark && p[2..] == w + "]" + rest;
    PlainRanges(w, rest, c);
  }

  /** a dash between two characters stands for those between */
  lemma ClassSpans(lo: char, hi: char, rest: string, c: char)
    requires lo != '!' && lo != '^' && lo != ']' && hi != ']'
    ensures var (a, n) := AtomOf(['[', lo, '-', hi, ']'] + rest); n == 5 && (Fits(a, c) <==> lo <= c <= hi)
  {
    var p, q := ['[', lo, '-', hi, ']'] + rest, [lo, '-', hi, ']'] + rest;
    assert p[1..] == q && q[3..] == [']'] + rest;
    assert Ranges([']'] + rest) == Some(([], 0)) && IsRange(q);
    assert Ranges(q) == Some(([(lo, hi)] + [], 3));
    FirstRange(lo, hi, [], c);
  }

  /** and for itself at the end */
  lemma ClassDash(x: char, rest: string, c: char)
    requires x != '!' && x != '^' && x != ']'
    ensures var (a, n) := AtomOf(['[', x, '-', ']'] + rest); n == 4 && (Fits(a, c) <==> c == x || c == '-')
  {
    var p, q, d := ['[', x, '-', ']'] + rest, [x, '-', ']'] + rest, ['-', ']'] + rest;
    assert p[1..] == q && q[1..] == d && d[1..] == [']'] + rest;
    assert Ranges([']'] + rest) == Some(([], 0)) && Ranges(d) == Some(([('-', '-')] + [], 1));
    assert Ranges(q) == Some(([(x, x)] + ([('-', '-')] + []), 2));
    FirstRange('-', '-', [], c);
    FirstRange(x, x, [('-', '-')] + [], c);
  }

  /** the other atoms */
  lemma AtomsMean(d: char, rest: string, c: char)
    ensures var (a, n) := AtomOf("." + rest); n == 1 && Fits(a, c)
    ensures var (a, n) := AtomOf("\\" + [d] + rest); n == 2 && (Fits(a, c) <==> c == d)
    ensures d != '.' && d != '[' && d != '\\' ==> var (a, n) := AtomOf([d] + rest); n == 1 && (Fits(a, c) <==> c == d)
  {
  }

  predicate Starred(p: string)
    requires p != ""
  {
    AtomOf(p).1 < |p| && p[AtomOf(p).1] == '*'
  }

  /** what a pattern denotes */
  function Parse(p: string): Regex
    decreases |p|
  {
    if p == "" then Done
    else if p == "$" then AtEnd
    else
      var (a, n) := AtomOf(p);
      if Starred(p) then Star(a, Parse(p[n + 1..])) else One(a, Parse(p[n..]))
  }

  // ----- the language -----

  predicate Run(a: Atom, s: string, k: nat)
    requires k <= |s|
  {
    forall j | 0 <= j < k :: Fits(a, s[j])
  }

  /** s, followed by rest, is matched by re */
  ghost predicate In(re: Regex, s: string, rest: string) {
    match re
    case Done => s == ""
    case AtEnd => s == "" && rest == ""
    case One(a, n) => s != "" && Fits(a, s[0]) && In(n, s[1..], rest)
    case Star(a, n) => exists k: nat {:trigger Run(a, s, k)} | k <= |s| :: Run(a, s, k) && In(n, s[k..], rest)
  }

  ghost predicate MatchesAt(re: Regex, t: string, k: nat)
    requires k <= |t|
  {
    In(re, t[..k], t[k..])
  }

  /** some prefix of t is matched */
  ghost predicate Some1(re: Regex, t: string) {
    exists k: nat {:trigger MatchesAt(re, t, k)} | k <= |t| :: MatchesAt(re, t, k)
  }

  ghost predicate StarFrom(a: Atom, n: Regex, t: string, i: nat)
    requires i <= |t|
  {
    Run(a, t, i) && Some1(n, t[i..])
  }

  /** i is the longest run after which the rest of the pattern matches */
  ghost predicate Longest(a: Atom, n: Regex, t: string, i: nat)
    requires i <= |t|
  {
    StarFrom(a, n, t, i) && forall j: nat {:trigger StarFrom(a, n, t, j)} | i < j <= |t| :: !StarFrom(a, n, t, j)
  }

  /** r is the length the search must find: each star takes as many characters as
      the rest of the pattern can follow */
  ghost predicate Greedy(re: Regex, t: string, r: nat) {
    match re
    case Done => r == 0
    case AtEnd => r == 0 && t == ""
    case One(a, n) => 0 < r <= |t| && Fits(a, t[0]) && Greedy(n, t[1..], r - 1)
    case Star(a, n) =>
      exists i: nat {:trigger Longest(a, n, t, i)} | i <= r && i <= |t| ::
        Longest(a, n, t, i) && Greedy(n, t[i..], r - i)
  }

  lemma {:induction false} OneMatches(a: Atom, n: Regex, t: string, k: nat)
    requires 0 < k <= |t|
    ensures MatchesAt(One(a, n), t, k) <==> Fits(a, t[0]) && MatchesAt(n, t[1..], k - 1)
  {
    assert t[..k][1..] == t[1..][..k - 1] && t[1..][k - 1..] == t[k..];
  }

  /** a match of a star splits into a run and a match of the rest */
  lemma {:induction false} StarMatches(a: Atom, n: Regex, t: string, i: nat, k: nat)
    requires i <= k <= |t| && Run(a, t, i) && MatchesAt(n, t[i..], k - i)
    ensures MatchesAt(Star(a, n), t, k)
  {
    var s := t[..k];
    assert Run(a, s, i);
    assert s[i..] == t[i..][..k - i] && t[i..][k - i..] == t[k..];
  }

  lemma StarSplits(a: Atom, n: Regex, t: string, k: nat) returns (i: nat)
    requires k <= |t| && MatchesAt(Star(a, n), t, k)
    ensures i <= k && StarFrom(a, n, t, i)
  {
    var s := t[..k];
    i :| i <= |s| && Run(a, s, i) && In(n, s[i..], t[k..]);
    forall j | 0 <= j < i ensures Fits(a, t[j]) { assert s[j] == t[j]; }
    assert s[i..] == t[i..][..k - i] && t[i..][k - i..] == t[k..];
    assert MatchesAt(n, t[i..], k - i);
  }

  /** Soundness of the specification: the greedy length is a match. */
  lemma {:induction false} GreedyMatches(re: Regex, t: string, r: nat)
    requires Greedy(re, t, r)
    ensures r <= |t| && MatchesAt(re, t, r)
    decreases re
  {
    match re
    case Done =>
    case AtEnd =>
    case One(a, n) =>
      GreedyMatches(n, t[1..], r - 1);
      OneMatches(a, n, t, r);
    case Star(a, n) =>
      var i: nat :| i <= r && i <= |t| && Longest(a, n, t, i) && Greedy(n, t[i..], r - i);
      GreedyMatches(n, t[i..], r - i);
      LongestMatches(a, n, t, i, r - i);
  }

  lemma LongestMatches(a: Atom, n: Regex, t: string, i: nat, k: nat)
    requires i <= |t| && Longest(a, n, t, i) && k <= |t[i..]| && MatchesAt(n, t[i..], k)
    ensures i + k <= |t| && MatchesAt(Star(a, n), t, i + k)
  {
    StarMatches(a, n, t, i, i + k);
  }

  /** There is only one greedy length. */
  lemma {:induction false} GreedyUnique(re: Regex, t: string, r: nat, r': nat)
    requires Greedy(re, t, r) && Greedy(re, t, r')
    ensures r == r'
    decreases re, 0
  {
    match re
    case Done =>
    case AtEnd =>
    case One(a, n) => GreedyUnique(n, t[1..], r - 1, r' - 1);
    case Star(a, n) => StarUnique(a, n, t, r, r');
  }

  lemma StarUnique(a: Atom, n: Regex, t: string, r: nat, r': nat)
    requires Greedy(Star(a, n), t, r) && Greedy(Star(a, n), t, r')
    ensures r == r'
    decreases n, 1
  {
    var i := StarLength(a, n, t, r);
    var i' := StarLength(a, n, t, r');
    LongestUnique(a, n, t, i, i');
    GreedyUnique(n, t[i..], r - i, r' - i);
  }

  lemma StarLength(a: Atom, n: Regex, t: string, r: nat) returns (i: nat)
    requires Greedy(Star(a, n), t, r)
    ensures i <= r && i <= |t| && Longest(a, n, t, i) && Greedy(n, t[i..], r - i)
  {
    i :| i <= r && i <= |t| && Longest(a, n, t, i) && Greedy(n, t[i..], r - i);
  }

  lemma LongestUnique(a: Atom, n: Regex, t: string, i: nat, j: nat)
    requires i <= |t| && j <= |t| && Longest(a, n, t, i) && Longest(a, n, t, j)
    ensures i == j
  {
    assert StarFrom(a, n, t, i) && StarFrom(a, n, t, j);
  }

  // ----- the code -----

  /** atom_match: does c fit the first atom of pat, and how long is the atom; an
      unclosed bracket leaves the caller's length alone */
  method AtomMatch(pat: string, c: char, len: nat) returns (ok: bool, len': nat)
    requires pat != ""
    ensures var (a, n) := AtomOf(pat); ok == Fits(a, c) && len' == if a.Never? then len else n
  {
    if pat[0] == '\\' && |pat| > 1 { return c == pat[1], 2; }
    if pat[0] == '.' { return true, 1; }
    if pat[0] == '[' {
      ok, len' := ClassMatch(pat, c, len);
      return;
    }
    return c == pat[0], 1;
  }

  /** the bracket loop */
  method ClassMatch(pat: string, c: char, len: nat) returns (ok: bool, len': nat)
    requires pat != "" && pat[0] == '['
    ensures var (a, n) := AtomOf(pat); ok == Fits(a, c) && len' == if a.Never? then len else n
  {
    var negate := Negated(pat);
    var p := if negate then 2 else 1;
    var matched := false;
    ghost var p0 := p;
    ghost var seen: seq<(char, char)> := [];
    PrependTwice([], 0, ('a', 'a'), 0, Ranges(pat[p0..]));
    while p < |pat| && pat[p] != ']'
      invariant p0 <= p <= |pat| && matched == InRanges(seen, c)
      invariant Ranges(pat[p0..]) == Prepend(seen, p - p0, Ranges(pat[p..]))
      decreases |pat| - p
    {
      ghost var rest := pat[p..];
      var lo := pat[p];
      var hi := lo;
      ghost var n := if IsRange(rest) then 3 else 1;
      assert rest[n..] == pat[p + n..];
      p := p + 1;
      if p + 1 < |pat| && pat[p] == '-' && pat[p + 1] != ']' {
        hi := pat[p + 1];
        p := p + 2;
      }
      ghost var was := seen;
      PrependTwice(seen, p - n - p0, (lo, hi), n, Ranges(pat[p..]));
      seen := seen + [(lo, hi)];
      RangesSnoc(was, lo, hi, c);
      if lo <= c <= hi { matched := true; }
    }
    if p >= |pat| { return false, len; }
    assert pat[p..][0] == ']';
    assert seen + [] == seen;
    return matched != negate, p + 1;
  }

  lemma RangesSnoc(rs: seq<(char, char)>, lo: char, hi: char, c: char)
    ensures InRanges(rs + [(lo, hi)], c) <==> InRanges(rs, c) || lo <= c <= hi
  {
    var s := rs + [(lo, hi)];
    if InRanges(rs, c) {
      var i :| 0 <= i < |rs| && rs[i].0 <= c <= rs[i].1;
      assert s[i] == rs[i];
    }
    if lo <= c <= hi { assert s[|rs|] == (lo, hi); }
  }

  lemma OneFails(a: Atom, n: Regex, t: string)
    requires t == "" || !Fits(a, t[0]) || !Some1(n, t[1..])
    ensures !Some1(One(a, n), t)
  {
    forall k: nat {:trigger MatchesAt(One(a, n), t, k)} | k <= |t| ensures !MatchesAt(One(a, n), t, k) {
      if k > 0 {
        OneMatches(a, n, t, k);
        assert t != "" ==> (MatchesAt(n, t[1..], k - 1) ==> Some1(n, t[1..]));
      }
    }
  }

  lemma OneSucceeds(a: Atom, n: Regex, t: string, r: nat)
    requires t != "" && Fits(a, t[0]) && Greedy(n, t[1..], r)
    ensures Greedy(One(a, n), t, 1 + r)
  {
    GreedyMatches(n, t[1..], r);
  }

  lemma StarFails(a: Atom, n: Regex, t: string)
    requires forall j: nat {:trigger StarFrom(a, n, t, j)} | j <= |t| :: !StarFrom(a, n, t, j)
    ensures !Some1(Star(a, n), t)
  {
    if Some1(Star(a, n), t) {
      var k: nat :| k <= |t| && MatchesAt(Star(a, n), t, k);
      var i := StarSplits(a, n, t, k);
    }
  }

  lemma StarSucceeds(a: Atom, n: Regex, t: string, i: nat, r: nat)
    requires i <= |t| && Run(a, t, i) && Greedy(n, t[i..], r)
    requires forall j: nat {:trigger StarFrom(a, n, t, j)} | i < j <= |t| :: !StarFrom(a, n, t, j)
    ensures Greedy(Star(a, n), t, i + r)
  {
    GreedyMatches(n, t[i..], r);
    assert MatchesAt(n, t[i..], r);
    assert StarFrom(a, n, t, i);
    assert Longest(a, n, t, i);
  }

  /** match_here: the greedy length, or -1 exactly when no prefix matches */
  method MatchHere(pat: string, text: string) returns (r: int)
    ensures r >= 0 ==> Greedy(Parse(pat), text, r)
    ensures r < 0 ==> r == -1 && !Some1(Parse(pat), text)
    decreases |pat|, 1
  {
    if pat == "" { return 0; }
    if pat == "$" {
      if text != "" {
        return -1;
      }
      return 0;
    }
    ghost var a := AtomOf(pat).0;
    var ok, alen := AtomMatch(pat, 0 as char, 1);
    if alen < |pat| && pat[alen] == '*' {
      r := MatchStar(pat, alen, text);
      return;
    }
    ghost var n := Parse(pat[alen..]);
    if text != "" {
      ok, alen := AtomMatch(pat, text[0], alen);
      if ok {
        r := MatchHere(pat[alen..], text[1..]);
        if r >= 0 {
          OneSucceeds(a, n, text, r);
          return 1 + r;
        }
      }
    }
    OneFails(a, n, text);
    return -1;
  }

  /** the starred case: the longest run first, then shorter ones */
  method MatchStar(pat: string, alen: nat, text: string) returns (r: int)
    requires pat != "" && pat != "$" && alen == AtomOf(pat).1 && Starred(pat)
    ensures r >= 0 ==> Greedy(Parse(pat), text, r)
    ensures r < 0 ==> r == -1 && !Some1(Parse(pat), text)
    decreases |pat|, 0
  {
    ghost var a, n := AtomOf(pat).0, Parse(pat[alen + 1..]);
    var max := LongestRun(pat, alen, text);
    var i: int := max;
    while i >= 0
      invariant -1 <= i <= max
      invariant forall j: nat {:trigger StarFrom(a, n, text, j)} | i < j <= |text| :: !StarFrom(a, n, text, j)
    {
      r := MatchHere(pat[alen + 1..], text[i..]);
      if r >= 0 {
        StarSucceeds(a, n, text, i, r);
        return i + r;
      }
      i := i - 1;
    }
    StarFails(a, n, text);
    return -1;
  }

  method LongestRun(pat: string, alen: nat, text: string) returns (max: nat)
    requires pat != "" && alen == AtomOf(pat).1
    ensures
      var a := AtomOf(pat).0;
      max <= |text| && Run(a, text, max) && forall j: nat | max < j <= |text| :: !Run(a, text, j)
  {
    max := 0;
    while max < |text|
      invariant max <= |text| && Run(AtomOf(pat).0, text, max)
    {
      var ok, len := AtomMatch(pat, text[max], alen);
      if !ok {
        forall j: nat | max < j <= |text|
          ensures !Run(AtomOf(pat).0, text, j)
        {
          assert !Fits(AtomOf(pat).0, text[max]);
        }
        return;
      }
      max := max + 1;
    }
  }

  lemma FoundAt(re: Regex, t: string, i: nat, r: nat)
    requires i <= |t| && Greedy(re, t[i..], r)
    ensures i + r <= |t| && In(re, t[i..i + r], t[i + r..])
  {
    GreedyMatches(re, t[i..], r);
    assert t[i..][..r] == t[i..i + r] && t[i..][r..] == t[i + r..];
  }

  /** regex_match: the leftmost start at which the pattern matches; a leading ^
      ties it to the beginning */
  method RegexMatch(pat: string, text: string) returns (found: bool, start: nat, end: nat)
    ensures
      var anchored := pat != "" && pat[0] == '^';
      var re := Parse(if anchored then pat[1..] else pat);
      && (found ==>
        start <= end <= |text| && Greedy(re, text[start..], end - start) && In(re, text[start..end], text[end..])
                    && (anchored ==> start == 0) && forall i: nat | i < start :: !Some1(re, text[i..]))
      && (!found ==> forall i: nat | i <= |text| && (anchored ==> i == 0) :: !Some1(re, text[i..]))
  {
    var anchored := pat != "" && pat[0] == '^';
    found, start, end := Search(if anchored then pat[1..] else pat, anchored, text);
  }

  /** the loop over the starts, of which an anchored pattern has only the first */
  method Search(p: string, anchored: bool, text: string) returns (found: bool, start: nat, end: nat)
    ensures found ==>
      && start <= end <= |text| && Greedy(Parse(p), text[start..], end - start)
      && In(Parse(p), text[start..end], text[end..]) && (anchored ==> start == 0)
    ensures forall i: nat | i <= |text| && (anchored ==> i == 0) && (found ==> i < start) :: !Some1(Parse(p), text[i..])
  {
    start, end := 0, 0;
    var i := 0;
    while i <= |text|
      invariant 0 <= i <= |text| + 1 && (anchored ==> i == 0)
      invariant forall j: nat | j < i :: !Some1(Parse(p), text[j..])
    {
      var r := MatchHere(p, text[i..]);
      if r >= 0 {
        FoundAt(Parse(p), text, i, r);
        return true, i, i + r;
      }
      if anchored { break; }
      i := i + 1;
    }
    found := false;
  }
}
