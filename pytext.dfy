/**
 * The pieces of Python's string, regular-expression, slicing and dict behaviour
 * that the indexer and the scraper helpers rely on, stated on `string` (a
 * `seq<char>`) and on sequences of pairs.
 */
module PyText {
  import opened Wrappers

  // ---------------------------------------------------------------------------
  // Character classes
  // ---------------------------------------------------------------------------

  predicate IsAsciiChar(c: char) { (c as int) < 128 }

  predicate IsAscii(s: string) { forall i :: 0 <= i < |s| ==> IsAsciiChar(s[i]) }

  predicate IsDigit(c: char) { '0' <= c <= '9' }

  predicate IsUpper(c: char) { 'A' <= c <= 'Z' }

  predicate IsLower(c: char) { 'a' <= c <= 'z' }

  predicate IsLetter(c: char) { IsUpper(c) || IsLower(c) }

  /** The regex class `\w` restricted to ASCII: letters, digits and `_`. */
  predicate IsWordChar(c: char) { IsLetter(c) || IsDigit(c) || c == '_' }

  /** Python's `str.isspace()`, which is also what `\s` and `strip()` use on `str`. */
  predicate IsSpace(c: char) {
    || c == ' '
    || ('\t' <= c <= '\r')
    || ('\U{1C}' <= c <= '\U{1F}')
    || c == '\U{85}' || c == '\U{A0}' || c == '\U{1680}'
    || ('\U{2000}' <= c <= '\U{200A}')
    || c == '\U{2028}' || c == '\U{2029}' || c == '\U{202F}' || c == '\U{205F}'
    || c == '\U{3000}'
  }

  predicate IsBlank(c: char) { c == ' ' }

  predicate IsUnderscore(c: char) { c == '_' }

  /** `str.lower()` on one ASCII character. */
  function AsciiLowerChar(c: char): (r: char)
    ensures !IsUpper(r)
    ensures IsAsciiChar(c) ==> IsAsciiChar(r)
  {
    if IsUpper(c) then (c as int + 32) as char else c
  }

  /** `str.lower()` on an ASCII string. */
  function AsciiLower(s: string): (r: string)
    ensures |r| == |s|
    ensures forall i :: 0 <= i < |s| ==> r[i] == AsciiLowerChar(s[i])
  {
    seq(|s|, i requires 0 <= i < |s| => AsciiLowerChar(s[i]))
  }

  // ---------------------------------------------------------------------------
  // The Unicode database
  // ---------------------------------------------------------------------------

  /**
   * The two Unicode-database operations the source calls: `str.lower()` and
   * `unicodedata.normalize("NFKD", .)`. Outside ASCII they depend on the
   * Unicode tables, so they are parameters; on ASCII they are fixed.
   */
  datatype UnicodeDb = UnicodeDb(lower: string -> string, nfkd: string -> string)

  /** NFKD leaves ASCII text unchanged (every ASCII character is its own decomposition). */
  ghost predicate NfkdFixesAscii(db: UnicodeDb) {
    forall s :: IsAscii(s) ==> db.nfkd(s) == s
  }

  /** `str.lower()` on ASCII text only maps `A`-`Z` to `a`-`z`. */
  ghost predicate LowerIsAsciiLower(db: UnicodeDb) {
    forall s :: IsAscii(s) ==> db.lower(s) == AsciiLower(s)
  }

  /** `s.encode("ascii", "ignore").decode("ascii")`: drop every non-ASCII character. */
  function AsciiOnly(s: string): (r: string)
    ensures IsAscii(r)
    ensures IsAscii(s) ==> r == s
    ensures |r| <= |s|
    decreases |s|
  {
    if s == [] then []
    else (if IsAsciiChar(s[0]) then [s[0]] else []) + AsciiOnly(s[1..])
  }

  // ---------------------------------------------------------------------------
  // strip, and runs of a character class
  // ---------------------------------------------------------------------------

  /** The number of leading characters of `s` in the class `p`. */
  function LeadingCount(s: string, p: char -> bool): (k: nat)
    ensures k <= |s|
    ensures forall i :: 0 <= i < k ==> p(s[i])
    ensures k < |s| ==> !p(s[k])
    decreases |s|
  {
    if s != [] && p(s[0]) then 1 + LeadingCount(s[1..], p) else 0
  }

  /** The number of trailing characters of `s` in the class `p`. */
  function TrailingCount(s: string, p: char -> bool): (k: nat)
    ensures k <= |s|
    ensures forall i :: |s| - k <= i < |s| ==> p(s[i])
    ensures k < |s| ==> !p(s[|s| - k - 1])
    decreases |s|
  {
    if s != [] && p(s[|s| - 1]) then 1 + TrailingCount(s[..|s| - 1], p) else 0
  }

  /** `s.lstrip(chars)` where `p` says which characters are stripped. */
  function LStrip(s: string, p: char -> bool): string {
    s[LeadingCount(s, p)..]
  }

  /** `s.rstrip(chars)` where `p` says which characters are stripped. */
  function RStrip(s: string, p: char -> bool): string {
    s[..|s| - TrailingCount(s, p)]
  }

  /** `s.strip(chars)`. */
  function Strip(s: string, p: char -> bool): string {
    RStrip(LStrip(s, p), p)
  }

  /**
   * `s.strip(chars)` is the slice of `s` after the leading run of the class,
   * and it neither starts nor ends in the class.
   */
  lemma {:induction false} StripSlice(s: string, p: char -> bool)
    ensures var a := LeadingCount(s, p);
      var r := Strip(s, p);
      && a + |r| <= |s|
      && r == s[a..a + |r|]
      && (r != [] ==> !p(r[0]) && !p(r[|r| - 1]))
  {
    var a := LeadingCount(s, p);
    var l := s[a..];
    var b := TrailingCount(l, p);
    assert l[..|l| - b] == s[a..a + |l| - b];
  }

  /** The leading run of `x + y` is exactly `x` when `x` is all in the class and `y` starts outside it. */
  lemma {:induction false} LeadingCountOf(x: string, y: string, p: char -> bool)
    requires forall i :: 0 <= i < |x| ==> p(x[i])
    requires y != [] && !p(y[0])
    ensures LeadingCount(x + y, p) == |x|
  {
    var s := x + y;
    assert forall i :: 0 <= i < |x| ==> s[i] == x[i];
    assert s[|x|] == y[0];
  }

  /** The trailing run of `x + y` is exactly `y` when `y` is all in the class and `x` ends outside it. */
  lemma {:induction false} TrailingCountOf(x: string, y: string, p: char -> bool)
    requires forall i :: 0 <= i < |y| ==> p(y[i])
    requires x != [] && !p(x[|x| - 1])
    ensures TrailingCount(x + y, p) == |y|
  {
    var s := x + y;
    assert forall i :: 0 <= i < |y| ==> s[|x| + i] == y[i];
    assert s[|x| - 1] == x[|x| - 1];
  }

  /** No two neighbouring characters both belong to the class `p`. */
  predicate NoAdjacent(s: string, p: char -> bool) {
    forall i :: 0 <= i < |s| - 1 ==> !(p(s[i]) && p(s[i + 1]))
  }

  /**
   * `re.sub(P + "+", rep, s)` where `P` is a one-character class: every maximal
   * run of characters satisfying `p` becomes the single character `rep`.
   */
  function CollapseRuns(s: string, p: char -> bool, rep: char): string
    decreases |s|
  {
    if s == [] then []
    else if p(s[0]) then [rep] + CollapseRuns(LStrip(s, p), p, rep)
    else [s[0]] + CollapseRuns(s[1..], p, rep)
  }

  /** A suffix of `s` has only characters of `s`. */
  lemma {:induction false} SuffixChars(s: string, t: string)
    requires |t| <= |s| && t == s[|s| - |t|..]
    ensures forall c :: c in t ==> c in s
  {
    forall c | c in t ensures c in s {
      var j :| 0 <= j < |t| && t[j] == c;
      assert s[|s| - |t| + j] == c;
    }
  }

  /** Every character of `r` is `rep`, or a character of `s` outside the class `p`. */
  predicate CharsFrom(r: string, s: string, p: char -> bool, rep: char) {
    forall i :: 0 <= i < |r| ==> r[i] == rep || (!p(r[i]) && r[i] in s)
  }

  /** Collapsing runs introduces no character but `rep`, and keeps none of the class. */
  lemma {:induction false} CollapseChars(s: string, p: char -> bool, rep: char)
    ensures CharsFrom(CollapseRuns(s, p, rep), s, p, rep)
    decreases |s|
  {
    if s != [] {
      var t := if p(s[0]) then LStrip(s, p) else s[1..];
      assert t == s[|s| - |t|..];
      CollapseChars(t, p, rep);
      SuffixChars(s, t);
      var rest := CollapseRuns(t, p, rep);
      CharsFromWider(rest, t, s, p, rep);
      var r := CollapseRuns(s, p, rep);
      assert r == [if p(s[0]) then rep else s[0]] + rest;
    }
  }

  /** `CharsFrom` carries over to any source containing the characters of the first. */
  lemma {:induction false} CharsFromWider(r: string, t: string, s: string, p: char -> bool, rep: char)
    requires CharsFrom(r, t, p, rep)
    requires forall c :: c in t ==> c in s
    ensures CharsFrom(r, s, p, rep)
  {
  }

  lemma {:induction false} CollapseStartsLike(s: string, p: char -> bool, rep: char)
    requires p(rep)
    ensures var r := CollapseRuns(s, p, rep);
      (r == [] <==> s == []) && (s != [] ==> (p(r[0]) <==> p(s[0])))
  {
  }

  /** When `rep` itself belongs to the class, the result has no run longer than one. */
  lemma {:induction false} CollapseNoAdjacent(s: string, p: char -> bool, rep: char)
    requires p(rep)
    ensures NoAdjacent(CollapseRuns(s, p, rep), p)
    decreases |s|
  {
    if s == [] {
    } else if p(s[0]) {
      var t := LStrip(s, p);
      CollapseNoAdjacent(t, p, rep);
      CollapseStartsLike(t, p, rep);
    } else {
      CollapseNoAdjacent(s[1..], p, rep);
      CollapseStartsLike(s[1..], p, rep);
    }
  }

  /** A string whose runs are already single `rep` characters is left as it is. */
  lemma {:induction false} CollapseIdentity(s: string, p: char -> bool, rep: char)
    requires NoAdjacent(s, p)
    requires forall i :: 0 <= i < |s| && p(s[i]) ==> s[i] == rep
    ensures CollapseRuns(s, p, rep) == s
    decreases |s|
  {
    if s != [] {
      assert NoAdjacent(s[1..], p);
      CollapseIdentity(s[1..], p, rep);
      if p(s[0]) {
        assert LStrip(s, p) == s[1..];
      }
    }
  }

  // ---------------------------------------------------------------------------
  // Splitting and joining
  // ---------------------------------------------------------------------------

  /** `sep.join(parts)` for a one-character separator. */
  function JoinWith(sep: char, parts: seq<string>): string
    decreases |parts|
  {
    if parts == [] then ""
    else if |parts| == 1 then parts[0]
    else parts[0] + [sep] + JoinWith(sep, parts[1..])
  }

  /** A token as the tokenizer produces it: non-empty, without blanks. */
  predicate IsWord(w: string) { w != [] && ' ' !in w }

  /** No leading, trailing or doubled blank. */
  predicate SingleSpaced(s: string) {
    && (s != [] ==> s[0] != ' ' && s[|s| - 1] != ' ')
    && NoAdjacent(s, IsBlank)
  }

  /** Length of the leading run of non-blank characters. */
  function WordLength(s: string): (k: nat)
    ensures k <= |s|
    ensures forall i :: 0 <= i < k ==> s[i] != ' '
    ensures k < |s| ==> s[k] == ' '
    decreases |s|
  {
    if s == [] || s[0] == ' ' then 0 else 1 + WordLength(s[1..])
  }

  /** Splitting on blanks, dropping empty pieces. */
  function Words(s: string): (ws: seq<string>)
    ensures forall i :: 0 <= i < |ws| ==> IsWord(ws[i])
    decreases |s|
  {
    if s == [] then []
    else if s[0] == ' ' then Words(s[1..])
    else
      var k := WordLength(s);
      [s[..k]] + Words(s[k..])
  }

  lemma {:induction false} WordLengthOf(w: string, t: string)
    requires ' ' !in w
    requires t == [] || t[0] == ' '
    ensures WordLength(w + t) == |w|
    decreases |w|
  {
    if w != [] {
      assert (w + t)[1..] == w[1..] + t;
      WordLengthOf(w[1..], t);
    }
  }

  /** Tokenizing a blank-joined list of words gives the words back. */
  lemma {:induction false} WordsOfJoin(ws: seq<string>)
    requires forall i :: 0 <= i < |ws| ==> IsWord(ws[i])
    ensures Words(JoinWith(' ', ws)) == ws
    decreases |ws|
  {
    if |ws| == 1 {
      WordLengthOf(ws[0], []);
      assert ws[0] + [] == ws[0];
      assert ws[0][..|ws[0]|] == ws[0];
    } else if |ws| > 1 {
      var rest := JoinWith(' ', ws[1..]);
      var s := ws[0] + [' '] + rest;
      WordLengthOf(ws[0], [' '] + rest);
      assert s == ws[0] + ([' '] + rest);
      assert s[..|ws[0]|] == ws[0] && s[|ws[0]| + 1..] == rest;
      WordsAfterFirst(s);
      WordsOfJoin(ws[1..]);
      assert ws == [ws[0]] + ws[1..];
    }
  }

  /** In a single-spaced string, the first word is followed by one blank and a single-spaced rest. */
  lemma {:induction false} SingleSpacedRest(s: string)
    requires SingleSpaced(s) && s != [] && WordLength(s) < |s|
    ensures WordLength(s) + 1 < |s|
    ensures SingleSpaced(s[WordLength(s) + 1..])
    ensures s == s[..WordLength(s)] + [' '] + s[WordLength(s) + 1..]
  {
    var k := WordLength(s);
    assert s[k] == ' ';
    assert k < |s| - 1;
    SingleSpacedAfter(s, k);
    SplitAround(s, k);
  }

  /** After a blank of a single-spaced string comes a single-spaced rest. */
  lemma {:induction false} SingleSpacedAfter(s: string, k: nat)
    requires SingleSpaced(s) && k < |s| - 1 && s[k] == ' '
    ensures SingleSpaced(s[k + 1..])
  {
    var t := s[k + 1..];
    assert t[0] != ' ' by {
      assert !(IsBlank(s[k]) && IsBlank(s[k + 1]));
    }
    assert NoAdjacent(t, IsBlank) by {
      forall i | 0 <= i < |t| - 1 ensures !(IsBlank(t[i]) && IsBlank(t[i + 1])) {
        assert t[i] == s[k + 1 + i] && t[i + 1] == s[k + 2 + i];
      }
    }
  }

  /** A string is what comes before position `k`, its character there, and what comes after. */
  lemma {:induction false} SplitAround(s: string, k: nat)
    requires k < |s|
    ensures s == s[..k] + [s[k]] + s[k + 1..]
  {
  }

  /** The words of a string whose first word ends in a blank: that word, then the words after the blank. */
  lemma {:induction false} WordsAfterFirst(s: string)
    requires s != [] && s[0] != ' ' && WordLength(s) < |s|
    ensures Words(s) == [s[..WordLength(s)]] + Words(s[WordLength(s) + 1..])
  {
    var k := WordLength(s);
    var after := s[k..];
    assert Words(s) == [s[..k]] + Words(after);
    assert after != [] && after[0] == ' ';
    assert Words(after) == Words(after[1..]);
    assert after[1..] == s[k + 1..];
  }

  /** Joining the words of a single-spaced string with blanks gives the string back. */
  lemma {:induction false} JoinOfWords(s: string)
    requires SingleSpaced(s)
    ensures JoinWith(' ', Words(s)) == s
    decreases |s|
  {
    if s != [] {
      var k := WordLength(s);
      if k == |s| {
        assert s[..k] == s;
        assert s[k..] == [];
      } else {
        var t := s[k + 1..];
        SingleSpacedRest(s);
        JoinOfWords(t);
        WordsAfterFirst(s);
        assert Words(t) != [];
      }
    }
  }

  // ---------------------------------------------------------------------------
  // Maximal runs of a character class
  // ---------------------------------------------------------------------------

  /** The maximal runs of characters in the class `q`, left to right. */
  function Runs(s: string, q: char -> bool): seq<string>
    decreases |s|
  {
    if s == [] then []
    else if !q(s[0]) then Runs(s[1..], q)
    else
      var k := LeadingCount(s, q);
      [s[..k]] + Runs(s[k..], q)
  }

  /** Every piece is non-empty and lies in the class `q`. */
  predicate PiecesIn(rs: seq<string>, q: char -> bool) {
    forall i :: 0 <= i < |rs| ==> rs[i] != [] && forall j :: 0 <= j < |rs[i]| ==> q(rs[i][j])
  }

  /** Each run is non-empty and lies in the class. */
  lemma {:induction false} RunsInClass(s: string, q: char -> bool)
    ensures PiecesIn(Runs(s, q), q)
    decreases |s|
  {
    if s != [] {
      if !q(s[0]) {
        assert Runs(s, q) == Runs(s[1..], q);
        RunsInClass(s[1..], q);
      } else {
        var k := LeadingCount(s, q);
        var h, rest := s[..k], Runs(s[k..], q);
        RunsInClass(s[k..], q);
        assert Runs(s, q) == [h] + rest;
        assert h != [] && forall j :: 0 <= j < |h| ==> q(h[j]);
      }
    }
  }

  /** A text with no character of the class has no run. */
  lemma {:induction false} NoRuns(s: string, q: char -> bool)
    requires forall i :: 0 <= i < |s| ==> !q(s[i])
    ensures Runs(s, q) == []
    decreases |s|
  {
    if s != [] {
      NoRuns(s[1..], q);
    }
  }

  /** A non-empty text all in the class is one run. */
  lemma {:induction false} RunsOfRun(w: string, q: char -> bool)
    requires w != [] && forall i :: 0 <= i < |w| ==> q(w[i])
    ensures Runs(w, q) == [w]
  {
    assert LeadingCount(w, q) == |w|;
    assert w[..|w|] == w && w[|w|..] == [];
  }

  /** A run followed by a text starting outside the class: that run, then the runs of the text. */
  lemma {:induction false} RunsHead(h: string, t: string, q: char -> bool)
    requires h != [] && forall i :: 0 <= i < |h| ==> q(h[i])
    requires t == [] || !q(t[0])
    ensures Runs(h + t, q) == [h] + Runs(t, q)
  {
    if t == [] {
      assert h + t == h;
      RunsOfRun(h, q);
    } else {
      LeadingCountOf(h, t, q);
      assert (h + t)[..|h|] == h && (h + t)[|h|..] == t;
    }
  }

  /** The runs of `x + y` are those of `x`, then those of `y`, when no run crosses the seam. */
  lemma {:induction false} RunsAppend(x: string, y: string, q: char -> bool)
    requires x == [] || y == [] || !q(x[|x| - 1]) || !q(y[0])
    ensures Runs(x + y, q) == Runs(x, q) + Runs(y, q)
    decreases |x|
  {
    if x == [] {
      assert x + y == y;
    } else if !q(x[0]) {
      assert (x + y)[1..] == x[1..] + y;
      RunsAppend(x[1..], y, q);
    } else {
      var k := LeadingCount(x, q);
      if k < |x| {
        var h, t := x[..k], x[k..];
        assert x == h + t && x + y == h + (t + y);
        RunsHead(h, t + y, q);
        RunsAppend(t, y, q);
      } else {
        RunsHead(x, y, q);
        RunsOfRun(x, q);
      }
    }
  }

  /** Characters outside the class in front of a text add no run. */
  lemma {:induction false} RunsSkip(s: string, k: nat, q: char -> bool)
    requires k <= |s| && forall i :: 0 <= i < k ==> !q(s[i])
    ensures Runs(s, q) == Runs(s[k..], q)
  {
    var h, t := s[..k], s[k..];
    assert forall i :: 0 <= i < |h| ==> h[i] == s[i];
    NoRuns(h, q);
    RunsAppend(h, t, q);
    assert h + t == s;
  }

  /**
   * Two texts of the same length with the same characters of the class at the
   * same places, and characters outside it elsewhere, have the same runs.
   */
  lemma {:induction false} RunsSameMask(a: string, b: string, q: char -> bool)
    requires |a| == |b|
    requires forall i :: 0 <= i < |a| ==> (q(a[i]) <==> q(b[i])) && (q(a[i]) ==> a[i] == b[i])
    ensures Runs(a, q) == Runs(b, q)
    decreases |a|
  {
    if a != [] {
      if !q(a[0]) {
        RunsSameMask(a[1..], b[1..], q);
      } else {
        var k := LeadingCount(a, q);
        var kb := LeadingCount(b, q);
        assert kb == k;
        assert a[..k] == b[..k];
        RunsSameMask(a[k..], b[k..], q);
      }
    }
  }

  /** `re.sub(P+, rep)` distributes over a concatenation whose seam is not inside a run of `P`. */
  lemma {:induction false} CollapseAppend(x: string, y: string, p: char -> bool, rep: char)
    requires x == [] || !p(x[|x| - 1])
    ensures CollapseRuns(x + y, p, rep) == CollapseRuns(x, p, rep) + CollapseRuns(y, p, rep)
    decreases |x|
  {
    if x == [] {
      assert x + y == y;
    } else if p(x[0]) {
      var k := LeadingCount(x, p);
      assert k < |x|;
      assert x + y == x[..k] + (x[k..] + y);
      LeadingCountOf(x[..k], x[k..] + y, p);
      assert LStrip(x + y, p) == x[k..] + y;
      CollapseAppend(x[k..], y, p, rep);
    } else {
      assert (x + y)[1..] == x[1..] + y;
      CollapseAppend(x[1..], y, p, rep);
    }
  }

  /**
   * `re.sub(P+, rep)` keeps the runs of a class `q` disjoint from `P` when `rep`
   * is outside `q`: it only rewrites what lies between them.
   */
  lemma {:induction false} CollapseKeepsRuns(s: string, p: char -> bool, rep: char, q: char -> bool)
    requires forall c :: p(c) ==> !q(c)
    requires !q(rep)
    ensures Runs(CollapseRuns(s, p, rep), q) == Runs(s, q)
    decreases |s|
  {
    if s == [] {
    } else if p(s[0]) {
      var k := LeadingCount(s, p);
      var c := CollapseRuns(s[k..], p, rep);
      CollapseKeepsRuns(s[k..], p, rep, q);
      RunsSkip(s, k, q);
      assert CollapseRuns(s, p, rep) == [rep] + c;
      assert ([rep] + c)[1..] == c;
    } else if !q(s[0]) {
      var c := CollapseRuns(s[1..], p, rep);
      CollapseKeepsRuns(s[1..], p, rep, q);
      assert CollapseRuns(s, p, rep) == [s[0]] + c;
      assert ([s[0]] + c)[1..] == c;
    } else {
      var k := LeadingCount(s, q);
      var head, t := s[..k], s[k..];
      assert s == head + t;
      assert forall i :: 0 <= i < |head| ==> !p(head[i]);
      CollapseAppend(head, t, p, rep);
      CollapseIdentity(head, p, rep);
      CollapseKeepsRuns(t, p, rep, q);
      var c := CollapseRuns(t, p, rep);
      if t != [] {
        assert c[0] == if p(t[0]) then rep else t[0];
      }
      RunsAppend(head, c, q);
      RunsOfRun(head, q);
    }
  }

  /** Dropping a tail of characters outside the class `q` keeps its runs. */
  lemma {:induction false} DropTailKeepsRuns(m: string, tail: string, q: char -> bool)
    requires forall i :: 0 <= i < |tail| ==> !q(tail[i])
    ensures Runs(m + tail, q) == Runs(m, q)
  {
    NoRuns(tail, q);
    RunsAppend(m, tail, q);
    assert Runs(m, q) + [] == Runs(m, q);
  }

  /** `rstrip` of characters outside the class `q` keeps its runs. */
  lemma {:induction false} RStripKeepsRuns(l: string, p: char -> bool, q: char -> bool)
    requires forall c :: p(c) ==> !q(c)
    ensures Runs(RStrip(l, p), q) == Runs(l, q)
  {
    var b := TrailingCount(l, p);
    var m := l[..|l| - b];
    var tail := l[|l| - b..];
    assert l == m + tail;
    assert forall i :: 0 <= i < |tail| ==> tail[i] == l[|l| - b + i];
    DropTailKeepsRuns(m, tail, q);
  }

  /** Stripping characters outside the class `q` keeps its runs. */
  lemma {:induction false} StripKeepsRuns(s: string, p: char -> bool, q: char -> bool)
    requires forall c :: p(c) ==> !q(c)
    ensures Runs(Strip(s, p), q) == Runs(s, q)
  {
    var a := LeadingCount(s, p);
    RunsSkip(s, a, q);
    RStripKeepsRuns(LStrip(s, p), p, q);
  }

  /** Runs of `q` separated by single `sep` characters, with no separator at either end. */
  predicate Separated(s: string, sep: char, isSep: char -> bool, q: char -> bool) {
    && (forall i :: 0 <= i < |s| ==> s[i] == sep || q(s[i]))
    && NoAdjacent(s, isSep)
    && (s != [] ==> s[0] != sep && s[|s| - 1] != sep)
  }

  /** The text after the first separator of a separated text is separated the same way. */
  lemma {:induction false} SeparatedRest(s: string, k: nat, sep: char, isSep: char -> bool, q: char -> bool)
    requires forall c :: isSep(c) <==> c == sep
    requires !q(sep)
    requires Separated(s, sep, isSep, q)
    requires k < |s| && s[k] == sep
    ensures k + 1 < |s| && q(s[k + 1])
    ensures Separated(s[k + 1..], sep, isSep, q)
  {
    var t := s[k + 1..];
    assert k + 1 < |s|;
    assert !(isSep(s[k]) && isSep(s[k + 1]));
    assert forall i :: 0 <= i < |t| ==> t[i] == s[k + 1 + i];
    forall i | 0 <= i < |t| - 1 ensures !(isSep(t[i]) && isSep(t[i + 1])) {
      assert t[i] == s[k + 1 + i] && t[i + 1] == s[k + 2 + i];
    }
  }

  /** A run ended by a separator: that run, then the runs after the separator. */
  lemma {:induction false} RunsBeforeSeparator(s: string, k: nat, q: char -> bool)
    requires 0 < k < |s| && forall i :: 0 <= i < k ==> q(s[i])
    requires !q(s[k])
    ensures Runs(s, q) == [s[..k]] + Runs(s[k + 1..], q)
  {
    var h, t := s[..k], s[k..];
    assert forall i :: 0 <= i < |h| ==> h[i] == s[i];
    assert h + t == s;
    RunsHead(h, t, q);
    assert t[1..] == s[k + 1..];
  }

  /** Two runs with one character outside the class between them. */
  lemma {:induction false} RunsOfTwo(a: string, c: char, b: string, q: char -> bool)
    requires a != [] && forall i :: 0 <= i < |a| ==> q(a[i])
    requires b != [] && forall i :: 0 <= i < |b| ==> q(b[i])
    requires !q(c)
    ensures Runs(a + [c] + b, q) == [a, b]
  {
    var t := [c] + b;
    assert a + [c] + b == a + t;
    RunsHead(a, t, q);
    assert t[1..] == b;
    RunsOfRun(b, q);
  }

  /** Joining a part in front of a non-empty list puts one separator between them. */
  lemma {:induction false} JoinCons(h: string, sep: char, rest: seq<string>)
    requires rest != []
    ensures JoinWith(sep, [h] + rest) == h + [sep] + JoinWith(sep, rest)
  {
    assert ([h] + rest)[1..] == rest;
  }

  /**
   * A text made of runs of `q` separated by single `sep` characters, with no
   * separator at either end, is `sep.join` of its runs.
   */
  lemma {:induction false} JoinOfRuns(s: string, sep: char, isSep: char -> bool, q: char -> bool)
    requires forall c :: isSep(c) <==> c == sep
    requires !q(sep)
    requires Separated(s, sep, isSep, q)
    ensures JoinWith(sep, Runs(s, q)) == s
    decreases |s|
  {
    if s != [] {
      var k := LeadingCount(s, q);
      if k == |s| {
        RunsOfRun(s, q);
      } else {
        assert s[k] == sep;
        var t := s[k + 1..];
        SeparatedRest(s, k, sep, isSep, q);
        JoinOfRuns(t, sep, isSep, q);
        RunsBeforeSeparator(s, k, q);
        assert Runs(t, q) != [] by {
          assert t[0] == s[k + 1];
        }
        JoinCons(s[..k], sep, Runs(t, q));
        SplitAround(s, k);
      }
    }
  }

  /** Position of the first occurrence of `c`. */
  function IndexOf(s: string, c: char): (k: nat)
    requires c in s
    ensures k < |s| && s[k] == c && c !in s[..k]
    decreases |s|
  {
    if s[0] == c then 0
    else
      assert c in s[1..] by { assert s == [s[0]] + s[1..]; }
      var k := 1 + IndexOf(s[1..], c);
      assert s[..k] == [s[0]] + s[1..][..k - 1];
      k
  }

  /** The first `c` of `a + t` is the head of `t` when `a` has none. */
  lemma {:induction false} IndexOfAfter(a: string, c: char, t: string)
    requires c !in a && t != [] && t[0] == c
    ensures c in a + t && IndexOf(a + t, c) == |a|
  {
    assert (a + t)[|a|] == c;
  }

  /** `s.split(c)`: the pieces between occurrences of `c`, empty pieces kept. */
  function Split(s: string, c: char): (parts: seq<string>)
    ensures |parts| >= 1
    ensures forall i :: 0 <= i < |parts| ==> c !in parts[i]
    decreases |s|
  {
    if c !in s then [s]
    else
      var k := IndexOf(s, c);
      [s[..k]] + Split(s[k + 1..], c)
  }

  /** `sep.join(s.split(sep)) == s`. */
  lemma {:induction false} SplitJoin(s: string, c: char)
    ensures JoinWith(c, Split(s, c)) == s
    decreases |s|
  {
    if c in s {
      var k := IndexOf(s, c);
      SplitJoin(s[k + 1..], c);
      var parts := Split(s, c);
      assert parts[1..] == Split(s[k + 1..], c);
      assert s == s[..k] + [c] + s[k + 1..];
    }
  }

  /** `s.split(c)` undoes `c.join(parts)` when no part contains `c`. */
  lemma {:induction false} SplitOfJoin(parts: seq<string>, c: char)
    requires |parts| >= 1
    requires forall i :: 0 <= i < |parts| ==> c !in parts[i]
    ensures Split(JoinWith(c, parts), c) == parts
    decreases |parts|
  {
    if |parts| > 1 {
      var rest := JoinWith(c, parts[1..]);
      var t := [c] + rest;
      assert JoinWith(c, parts) == parts[0] + t;
      SplitAfter(parts[0], c, t);
      assert t[1..] == rest;
      SplitOfJoin(parts[1..], c);
      assert parts == [parts[0]] + parts[1..];
    }
  }

  /** Splitting `a + t`, where `t` starts with the first `c`, yields `a` then the pieces of the rest. */
  lemma {:induction false} SplitAfter(a: string, c: char, t: string)
    requires c !in a && t != [] && t[0] == c
    ensures Split(a + t, c) == [a] + Split(t[1..], c)
  {
    IndexOfAfter(a, c, t);
    assert (a + t)[..|a|] == a && (a + t)[|a| + 1..] == t[1..];
  }

  /** The first piece of `b + rest` is `b` when `b` has no `c` and `rest` is empty or starts with `c`. */
  lemma {:induction false} SplitHead(b: string, c: char, rest: string)
    requires c !in b
    requires rest == [] || rest[0] == c
    ensures Split(b + rest, c)[0] == b
  {
    if rest != [] {
      SplitAfter(b, c, rest);
    } else {
      assert b + rest == b;
    }
  }

  /**
   * `(a + c + b + rest).split(c)` starts with `a` and `b` when neither holds
   * `c` and `rest` is empty or starts a further piece.
   */
  lemma {:induction false} SplitFirstTwo(a: string, c: char, b: string, rest: string)
    requires c !in a && c !in b
    requires rest == [] || rest[0] == c
    ensures var parts := Split(a + [c] + b + rest, c);
      |parts| >= 2 && parts[0] == a && parts[1] == b
  {
    var t := [c] + (b + rest);
    assert a + [c] + b + rest == a + t by {
      assert a + [c] + b + rest == a + ([c] + b + rest);
    }
    SplitAfter(a, c, t);
    assert t[1..] == b + rest;
    SplitHead(b, c, rest);
  }

  lemma {:induction false} SplitHasTwoPieces(s: string, c: char)
    ensures |Split(s, c)| >= 2 <==> c in s
  {
  }

  // ---------------------------------------------------------------------------
  // Slicing
  // ---------------------------------------------------------------------------

  /** How Python normalises one bound of `s[lo:hi]` against `len(s)`. */
  function SliceBound(i: int, len: nat): (b: nat)
    ensures b <= len
  {
    if i < 0 then (if i + len < 0 then 0 else i + len)
    else if i > len then len
    else i
  }

  /** Python's `s[lo:hi]`, negative and out-of-range bounds included. */
  function PySlice<T>(s: seq<T>, lo: int, hi: int): seq<T> {
    var a := SliceBound(lo, |s|);
    var b := SliceBound(hi, |s|);
    if a < b then s[a..b] else []
  }

  // ---------------------------------------------------------------------------
  // Python dicts: insertion-ordered, one entry per key
  // ---------------------------------------------------------------------------

  predicate UniqueKeys<K(==), V>(d: seq<(K, V)>) {
    forall i, j :: 0 <= i < j < |d| ==> d[i].0 != d[j].0
  }

  /** A Python `dict`: its entries in insertion order. */
  type Dict<K(==), V> = d: seq<(K, V)> | UniqueKeys(d) witness []

  function Keys<K, V>(d: seq<(K, V)>): (ks: seq<K>)
    ensures |ks| == |d| && forall i :: 0 <= i < |d| ==> ks[i] == d[i].0
  {
    seq(|d|, i requires 0 <= i < |d| => d[i].0)
  }

  /** Position of the entry for `k`. */
  function KeyIndex<K(==), V>(d: seq<(K, V)>, k: K): (i: nat)
    requires k in Keys(d)
    ensures i < |d| && d[i].0 == k
    ensures forall j :: 0 <= j < i ==> d[j].0 != k
    decreases |d|
  {
    if d[0].0 == k then 0
    else
      assert Keys(d) == [d[0].0] + Keys(d[1..]);
      1 + KeyIndex(d[1..], k)
  }

  /** `d.get(k)`. */
  function Lookup<K(==), V>(d: seq<(K, V)>, k: K): (r: Option<V>)
    ensures r.None? <==> k !in Keys(d)
  {
    if k in Keys(d) then Some(d[KeyIndex(d, k)].1) else None
  }

  /** `d[k] = v`: a new key goes last, an existing key keeps its place. */
  function Assign<K(==), V>(d: Dict<K, V>, k: K, v: V): (r: Dict<K, V>)
    ensures Keys(r) == if k in Keys(d) then Keys(d) else Keys(d) + [k]
    ensures Lookup(r, k) == Some(v)
  {
    if k in Keys(d) then
      var r := d[KeyIndex(d, k) := (k, v)];
      assert Keys(r) == Keys(d);
      r
    else
      var r := d + [(k, v)];
      assert Keys(r) == Keys(d) + [k];
      r
  }

  /** `d[k] = v` leaves every other key's value alone. */
  lemma {:induction false} AssignOther<K, V>(d: Dict<K, V>, k: K, v: V, j: K)
    requires j != k
    ensures Lookup(Assign(d, k, v), j) == Lookup(d, j)
  {
    var r := Assign(d, k, v);
    if j in Keys(d) {
      assert Keys(r)[KeyIndex(r, j)] == j && Keys(d)[KeyIndex(d, j)] == j;
    }
  }

  /** The dict built by assigning `ps` in order: `dict(ps)`. */
  function FromPairs<K(==), V>(ps: seq<(K, V)>): (d: Dict<K, V>)
    decreases |ps|
  {
    if ps == [] then []
    else
      var last := ps[|ps| - 1];
      Assign(FromPairs(ps[..|ps| - 1]), last.0, last.1)
  }

  /** No pair after position `i` has the key of pair `i`. */
  predicate LastWithKey<K(==), V>(ps: seq<(K, V)>, i: nat)
    requires i < |ps|
  {
    forall j :: i < j < |ps| ==> ps[j].0 != ps[i].0
  }

  /** `dict(ps)` has the keys of the pairs and no others. */
  lemma {:induction false} FromPairsKeys<K, V>(ps: seq<(K, V)>, k: K)
    ensures k in Keys(FromPairs(ps)) <==> k in Keys(ps)
    decreases |ps|
  {
    if ps != [] {
      var init := ps[..|ps| - 1];
      var last := ps[|ps| - 1];
      FromPairsKeys(init, k);
      assert Keys(ps) == Keys(init) + [last.0];
    }
  }

  /** A key of `dict(ps)` maps to the value of the last pair with that key. */
  lemma {:induction false} FromPairsValue<K, V>(ps: seq<(K, V)>, k: K, i: nat)
    requires i < |ps| && ps[i].0 == k && LastWithKey(ps, i)
    ensures Lookup(FromPairs(ps), k) == Some(ps[i].1)
    decreases |ps|
  {
    var init := ps[..|ps| - 1];
    var last := ps[|ps| - 1];
    if i < |ps| - 1 {
      assert last.0 != k;
      assert LastWithKey(init, i) by {
        forall j | i < j < |init| ensures init[j].0 != init[i].0 {
          assert init[j] == ps[j];
        }
      }
      FromPairsValue(init, k, i);
      AssignOther(FromPairs(init), last.0, last.1, k);
    }
  }

  /** A key is in `dict(ps)` exactly when some pair has it, and it maps to the value of the last such pair. */
  lemma {:induction false} FromPairsLookup<K, V>(ps: seq<(K, V)>, k: K)
    ensures k in Keys(FromPairs(ps)) <==> exists i :: 0 <= i < |ps| && ps[i].0 == k
    ensures forall i :: 0 <= i < |ps| && ps[i].0 == k && LastWithKey(ps, i) ==> Lookup(FromPairs(ps), k) == Some(ps[i].1)
  {
    FromPairsKeys(ps, k);
    assert k in Keys(ps) <==> exists i :: 0 <= i < |ps| && ps[i].0 == k by {
      if k in Keys(ps) {
        var i :| 0 <= i < |ps| && Keys(ps)[i] == k;
        assert ps[i].0 == k;
      }
    }
    forall i | 0 <= i < |ps| && ps[i].0 == k && LastWithKey(ps, i) ensures Lookup(FromPairs(ps), k) == Some(ps[i].1) {
      FromPairsValue(ps, k, i);
    }
  }
}
