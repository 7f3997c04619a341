/** Python string semantics that the downloader, the manifest parser and the
    batch driver rely on: `str.isspace`, ASCII case mapping, `str.strip`,
    `str.replace`, the `in` operator on strings, `str.title`, and the few shapes
    of regular expression the source searches with. */
module Text {

  datatype Option<T> = None | Some(value: T)

  datatype Result<T, E> = Ok(value: T) | Err(error: E)

  // ---------------------------------------------------------------------------
  // Characters

  predicate IsAsciiUpper(c: char) { 'A' <= c <= 'Z' }
  predicate IsAsciiLower(c: char) { 'a' <= c <= 'z' }
  predicate IsAsciiLetter(c: char) { IsAsciiUpper(c) || IsAsciiLower(c) }
  predicate IsDigit(c: char) { '0' <= c <= '9' }
  /** The regular-expression class `[a-zA-Z0-9]`. */
  predicate IsAlnum(c: char) { IsAsciiLetter(c) || IsDigit(c) }

  /** Python's `str.isspace`: the characters `str.strip()` removes. */
  predicate IsSpace(c: char) {
    || c == ' '
    || ('\t' <= c <= '\r')
    || ('\U{1C}' <= c <= '\U{1F}')
    || c == '\U{85}' || c == '\U{A0}' || c == '\U{1680}'
    || ('\U{2000}' <= c <= '\U{200A}')
    || c == '\U{2028}' || c == '\U{2029}' || c == '\U{202F}' || c == '\U{205F}' || c == '\U{3000}'
  }

  function ToLower(c: char): char {
    if IsAsciiUpper(c) then (c as int + 32) as char else c
  }

  function ToUpper(c: char): char {
    if IsAsciiLower(c) then (c as int - 32) as char else c
  }

  /** `str.lower()`, restricted to the ASCII letters. */
  function Lower(s: string): string {
    seq(|s|, i requires 0 <= i < |s| => ToLower(s[i]))
  }

  /** `str.title()`: a cased character is upper-cased when the character before
      it is not cased, and lower-cased otherwise. */
  function TitleCase(s: string): string {
    seq(|s|, i requires 0 <= i < |s| =>
      if i == 0 || !IsAsciiLetter(s[i - 1]) then ToUpper(s[i]) else ToLower(s[i]))
  }

  /** The character classes of the source's regular expressions and strip calls. */
  datatype CharClass =
    | Alnum                   // [a-zA-Z0-9]
    | SheetIdChar             // [a-zA-Z0-9-_]
    | Digits                  // [0-9]
    | AllBut(excluded: char)  // [^x]
    | NoChar                  // the empty class
    | Whitespace              // what str.strip() removes
    | OneOf(members: set<char>)

  predicate InClass(c: char, k: CharClass) {
    match k
    case Alnum => IsAlnum(c)
    case SheetIdChar => IsAlnum(c) || c == '-' || c == '_'
    case Digits => IsDigit(c)
    case AllBut(x) => c != x
    case NoChar => false
    case Whitespace => IsSpace(c)
    case OneOf(cs) => c in cs
  }

  predicate AllIn(s: string, k: CharClass) {
    forall i :: 0 <= i < |s| ==> InClass(s[i], k)
  }

  predicate NoneIn(s: string, k: CharClass) {
    forall i :: 0 <= i < |s| ==> !InClass(s[i], k)
  }

  /** No two adjacent U+0020 spaces. */
  predicate NoDoubleSpace(s: string) {
    forall i :: 0 <= i < |s| - 1 && s[i] == ' ' ==> s[i + 1] != ' '
  }

  // ---------------------------------------------------------------------------
  // str.strip

  function StripLeft(s: string, k: CharClass): (r: string)
    ensures |r| <= |s| && r == s[|s| - |r|..]
    ensures AllIn(s[..|s| - |r|], k)
    ensures |r| > 0 ==> !InClass(r[0], k)
    decreases |s|
  {
    if |s| > 0 && InClass(s[0], k) then StripLeft(s[1..], k) else s
  }

  function StripRight(s: string, k: CharClass): (r: string)
    ensures |r| <= |s| && r == s[..|r|]
    ensures AllIn(s[|r|..], k)
    ensures |r| > 0 ==> !InClass(r[|r| - 1], k)
    decreases |s|
  {
    if |s| > 0 && InClass(s[|s| - 1], k) then StripRight(s[..|s| - 1], k) else s
  }

  /** `s.strip(chars)`: removes class characters from both ends. */
  function StripBy(s: string, k: CharClass): (r: string)
    ensures |r| > 0 ==> !InClass(r[0], k) && !InClass(r[|r| - 1], k)
  {
    var l := StripLeft(s, k);
    var r := StripRight(l, k);
    assert |r| > 0 ==> r[0] == l[0];
    r
  }

  /** `s.strip()`. */
  function Strip(s: string): string {
    StripBy(s, Whitespace)
  }

  /** Stripping changes nothing when neither end is a class character. */
  lemma StripByNoop(s: string, k: CharClass)
    requires |s| > 0 ==> !InClass(s[0], k) && !InClass(s[|s| - 1], k)
    ensures StripBy(s, k) == s
  {
  }

  lemma StripByIdempotent(s: string, k: CharClass)
    ensures StripBy(StripBy(s, k), k) == StripBy(s, k)
  {
    StripByNoop(StripBy(s, k), k);
  }

  /** The stripped string is a contiguous piece of the original. */
  lemma StripBySlice(s: string, k: CharClass) returns (a: nat, b: nat)
    ensures a <= b <= |s| && StripBy(s, k) == s[a..b]
  {
    var l := StripLeft(s, k);
    var r := StripRight(l, k);
    a, b := |s| - |l|, |s| - |l| + |r|;
  }

  lemma SliceKeepsNoneIn(s: string, a: nat, b: nat, bad: CharClass)
    requires a <= b <= |s| && NoneIn(s, bad)
    ensures NoneIn(s[a..b], bad)
  {
    forall i | 0 <= i < b - a ensures !InClass(s[a..b][i], bad) {
      assert s[a..b][i] == s[a + i];
    }
  }

  lemma SliceKeepsNoDoubleSpace(s: string, a: nat, b: nat)
    requires a <= b <= |s| && NoDoubleSpace(s)
    ensures NoDoubleSpace(s[a..b])
  {
    var t := s[a..b];
    forall i | 0 <= i < |t| - 1 && t[i] == ' ' ensures t[i + 1] != ' ' {
      assert t[i] == s[a + i] && t[i + 1] == s[a + i + 1];
    }
  }

  lemma StripByKeepsNoneIn(s: string, k: CharClass, bad: CharClass)
    requires NoneIn(s, bad)
    ensures NoneIn(StripBy(s, k), bad)
  {
    var a, b := StripBySlice(s, k);
    SliceKeepsNoneIn(s, a, b, bad);
  }

  lemma StripByKeepsNoDoubleSpace(s: string, k: CharClass)
    requires NoDoubleSpace(s)
    ensures NoDoubleSpace(StripBy(s, k))
  {
    var a, b := StripBySlice(s, k);
    SliceKeepsNoDoubleSpace(s, a, b);
  }

  // ---------------------------------------------------------------------------
  // Literal substrings: `p in s`, `s.find(p)`, `s.replace(p, q)`

  predicate OccursAt(s: string, p: string, i: nat) {
    i + |p| <= |s| && s[i..i + |p|] == p
  }

  /** The leftmost occurrence of `p` at or after `from`. */
  function IndexOfFrom(s: string, p: string, from: nat): (r: Option<nat>)
    ensures r.Some? ==> from <= r.value && OccursAt(s, p, r.value)
    ensures forall i :: from <= i && (r.None? || i < r.value) ==> !OccursAt(s, p, i)
    decreases |s| + 1 - from
  {
    if from + |p| > |s| then None
    else if s[from..from + |p|] == p then Some(from)
    else IndexOfFrom(s, p, from + 1)
  }

  function IndexOf(s: string, p: string): Option<nat> {
    IndexOfFrom(s, p, 0)
  }

  lemma AppendAssoc<T>(a: seq<T>, b: seq<T>, c: seq<T>)
    ensures a + (b + c) == (a + b) + c
  {
  }

  /** Python's `p in s`. */
  predicate Contains(s: string, p: string) {
    IndexOf(s, p).Some?
  }

  lemma ContainsIff(s: string, p: string)
    ensures Contains(s, p) <==> exists i :: OccursAt(s, p, i)
  {
  }

  /** `s.replace(pat, rep)`: every non-overlapping occurrence, left to right. */
  function Replace(s: string, pat: string, rep: string): string
    requires |pat| > 0
    decreases |s|
  {
    if |s| < |pat| then s
    else if s[..|pat|] == pat then rep + Replace(s[|pat|..], pat, rep)
    else [s[0]] + Replace(s[1..], pat, rep)
  }

  /** Replaces every character of class `k` by `c` (a one-class `re.sub`). */
  function ReplaceClass(s: string, k: CharClass, c: char): string {
    seq(|s|, i requires 0 <= i < |s| => if InClass(s[i], k) then c else s[i])
  }

  lemma ReplaceClassNoop(s: string, k: CharClass, c: char)
    requires NoneIn(s, k)
    ensures ReplaceClass(s, k, c) == s
  {
  }

  /** `re.sub(' +', ' ', s)`: every run of spaces becomes one space. */
  function CollapseSpaces(s: string): string
    decreases |s|
  {
    if |s| < 2 then s
    else if s[0] == ' ' && s[1] == ' ' then CollapseSpaces(s[1..])
    else [s[0]] + CollapseSpaces(s[1..])
  }

  // ---------------------------------------------------------------------------
  // Regular expressions of the shape  L1 L2 ... Ln C{min,}  [x]

  /** A pattern: a lead of one-character classes, then a greedy run of class
      `run` at least `minRun` long, then (optionally) a closing character. */
  datatype Pattern = Pattern(lead: seq<set<char>>, run: CharClass, minRun: nat, close: Option<char>)

  /** A literal lead, matched case-sensitively. */
  function Lit(s: string): seq<set<char>> {
    seq(|s|, i requires 0 <= i < |s| => {s[i]})
  }

  /** A literal lead under `re.IGNORECASE` (ASCII letters). */
  function LitNoCase(s: string): seq<set<char>> {
    seq(|s|, i requires 0 <= i < |s| => {ToLower(s[i]), ToUpper(s[i])})
  }

  /** Length of the run of class-`k` characters that starts at `i`. */
  function RunLength(s: string, i: nat, k: CharClass): (n: nat)
    requires i <= |s|
    ensures i + n <= |s|
    ensures forall j :: i <= j < i + n ==> InClass(s[j], k)
    ensures i + n == |s| || !InClass(s[i + n], k)
    decreases |s| - i
  {
    if i < |s| && InClass(s[i], k) then 1 + RunLength(s, i + 1, k) else 0
  }

  predicate LeadAt(s: string, i: nat, lead: seq<set<char>>) {
    i + |lead| <= |s| && forall j :: 0 <= j < |lead| ==> s[i + j] in lead[j]
  }

  /** The pattern matches at position `i` (the greedy run cannot backtrack
      usefully: a shorter run is followed by a class character, never by the
      closing character, because every closing character used is outside its run class). */
  predicate MatchesAt(s: string, p: Pattern, i: nat) {
    && LeadAt(s, i, p.lead)
    && var n := RunLength(s, i + |p.lead|, p.run);
    && n >= p.minRun
    && (p.close.Some? ==> i + |p.lead| + n < |s| && s[i + |p.lead| + n] == p.close.value)
  }

  /** Where a match sits: `s[start..end]` is `group(0)`, `s[runStart..runEnd]` the run. */
  datatype Match = Match(start: nat, runStart: nat, runEnd: nat, end: nat)

  function MatchAt(s: string, p: Pattern, i: nat): (m: Match)
    requires MatchesAt(s, p, i)
    ensures m.start == i && m.runStart == i + |p.lead|
    ensures m.runStart + p.minRun <= m.runEnd <= m.end <= |s|
    ensures m.end == if p.close.Some? then m.runEnd + 1 else m.runEnd
  {
    var rs := i + |p.lead|;
    var re := rs + RunLength(s, rs, p.run);
    Match(i, rs, re, if p.close.Some? then re + 1 else re)
  }

  predicate IsFirstMatch(s: string, p: Pattern, i: nat) {
    MatchesAt(s, p, i) && forall j :: 0 <= j < i ==> !MatchesAt(s, p, j)
  }

  /** `re.search` started at `from`: the leftmost match. */
  function SearchFrom(s: string, p: Pattern, from: nat): (r: Option<Match>)
    ensures r.Some? ==> from <= r.value.start && MatchesAt(s, p, r.value.start)
                        && r.value == MatchAt(s, p, r.value.start)
    ensures forall i :: from <= i && (r.None? || i < r.value.start) ==> !MatchesAt(s, p, i)
    decreases |s| + 1 - from
  {
    if from > |s| then None
    else if MatchesAt(s, p, from) then Some(MatchAt(s, p, from))
    else SearchFrom(s, p, from + 1)
  }

  /** `re.search(p, s)`. */
  function Search(s: string, p: Pattern): (r: Option<Match>)
    ensures r.Some? ==> IsFirstMatch(s, p, r.value.start) && r.value == MatchAt(s, p, r.value.start)
    ensures r.None? ==> forall i :: !MatchesAt(s, p, i)
  {
    SearchFrom(s, p, 0)
  }

  /** The text of the run (the capture group) of a match. */
  function Group(s: string, m: Match): string
    requires m.runStart <= m.runEnd <= |s|
  {
    s[m.runStart..m.runEnd]
  }

  /** `re.sub(p, '', s)`: removes every non-overlapping match, left to right. */
  function SubAll(s: string, p: Pattern): string
    requires |p.lead| > 0
    decreases |s|
  {
    match Search(s, p)
    case None => s
    case Some(m) => s[..m.start] + SubAll(s[m.end..], p)
  }

  /** `s` holds `prefix` at `i`, followed by at least one class-`k` character:
      where `prefix([k]+)` matches. */
  predicate RunFollows(s: string, prefix: string, k: CharClass, i: nat) {
    OccursAt(s, prefix, i) && i + |prefix| < |s| && InClass(s[i + |prefix|], k)
  }

  /** `g` is the whole run of class-`k` characters that starts at `j`. */
  predicate IsRunAt(s: string, j: nat, g: string, k: CharClass) {
    && |g| > 0 && j + |g| <= |s| && s[j..j + |g|] == g && AllIn(g, k)
    && (j + |g| == |s| || !InClass(s[j + |g|], k))
  }

  function RunPattern(prefix: string, k: CharClass): Pattern {
    Pattern(Lit(prefix), k, 1, None)
  }

  lemma RunPatternIff(s: string, prefix: string, k: CharClass, i: nat)
    ensures MatchesAt(s, RunPattern(prefix, k), i) <==> RunFollows(s, prefix, k, i)
  {
    LitLeadIff(s, i, prefix);
  }

  /** `re.search(prefix + '([k]+)', s).group(1)`, or `None` without a match:
      the longest run after the leftmost place where the prefix is followed by
      a run character. */
  function RunAfter(s: string, prefix: string, k: CharClass): (r: Option<string>)
    ensures r.Some? ==> |r.value| > 0 && AllIn(r.value, k)
    ensures r.None? <==> forall i :: !RunFollows(s, prefix, k, i)
    ensures r.Some? ==> exists i: nat ::
      && RunFollows(s, prefix, k, i)
      && (forall j :: 0 <= j < i ==> !RunFollows(s, prefix, k, j))
      && IsRunAt(s, i + |prefix|, r.value, k)
  {
    var p := RunPattern(prefix, k);
    forall i ensures MatchesAt(s, p, i) <==> RunFollows(s, prefix, k, i) {
      RunPatternIff(s, prefix, k, i);
    }
    match Search(s, p)
    case None => None
    case Some(m) =>
      var g := Group(s, m);
      assert IsRunAt(s, m.start + |prefix|, g, k);
      Some(g)
  }

  // ---------------------------------------------------------------------------
  // Facts used to evaluate the functions above on structured strings

  /** `s` ends with `t`. */
  predicate EndsWith(s: string, t: string) {
    |t| <= |s| && s[|s| - |t|..] == t
  }

  lemma StripByKeepsLast(s: string, k: CharClass)
    requires |s| > 0 && !InClass(s[|s| - 1], k)
    ensures |StripBy(s, k)| > 0 && StripBy(s, k)[|StripBy(s, k)| - 1] == s[|s| - 1]
  {
    StripLeftKeepsLast(s, k);
    StripRightNoop(StripLeft(s, k), k);
  }

  lemma StripRightNoop(s: string, k: CharClass)
    requires |s| > 0 && !InClass(s[|s| - 1], k)
    ensures StripRight(s, k) == s
  {
  }

  lemma StripLeftKeepsLast(s: string, k: CharClass)
    requires |s| > 0 && !InClass(s[|s| - 1], k)
    ensures |StripLeft(s, k)| > 0 && StripLeft(s, k)[|StripLeft(s, k)| - 1] == s[|s| - 1]
    decreases |s|
  {
    if InClass(s[0], k) {
      assert |s| > 1;
      StripLeftKeepsLast(s[1..], k);
    }
  }

  /** A trailing space never survives `strip()`. */
  lemma StripTrailingSpace(x: string)
    ensures Strip(x + " ") == Strip(x)
  {
    var lx := StripLeft(x, Whitespace);
    if lx == [] {
      StripLeftBlankSpaced(x);
    } else {
      StripLeftAppend(x, " ", Whitespace);
      StripRightDropsSpace(lx);
    }
  }

  lemma StripLeftBlankSpaced(x: string)
    requires StripLeft(x, Whitespace) == []
    ensures StripLeft(x + " ", Whitespace) == []
  {
    assert x[..|x|] == x;
    assert AllIn(x + " ", Whitespace);
    StripLeftAll(x + " ", Whitespace);
  }

  lemma StripRightDropsSpace(l: string)
    ensures StripRight(l + " ", Whitespace) == StripRight(l, Whitespace)
  {
    assert (l + " ")[..|l|] == l;
  }

  lemma StripLeftAll(s: string, k: CharClass)
    requires AllIn(s, k)
    ensures StripLeft(s, k) == []
    decreases |s|
  {
    if |s| > 0 {
      StripLeftAll(s[1..], k);
    }
  }

  /** `StripLeft` removes exactly the leading run of class characters. */
  lemma StripLeftAt(s: string, k: CharClass, d: nat)
    requires d < |s| && !InClass(s[d], k)
    requires forall j :: 0 <= j < d ==> InClass(s[j], k)
    ensures StripLeft(s, k) == s[d..]
    decreases d
  {
    if d > 0 {
      var t := s[1..];
      forall j | 0 <= j < d - 1 ensures InClass(t[j], k) {
        assert t[j] == s[j + 1];
      }
      StripLeftAt(t, k, d - 1);
      assert t[d - 1..] == s[d..];
    }
  }

  /** What `StripLeft` removed is a run of class characters ending before
      a character outside the class. */
  lemma StripLeftRun(x: string, k: CharClass, d: nat)
    requires StripLeft(x, k) != [] && d == |x| - |StripLeft(x, k)|
    ensures d < |x| && !InClass(x[d], k) && StripLeft(x, k) == x[d..]
    ensures forall j :: 0 <= j < d ==> InClass(x[j], k)
  {
    forall j | 0 <= j < d ensures InClass(x[j], k) {
      assert x[j] == x[..d][j];
    }
  }

  lemma RunExtends(x: string, y: string, k: CharClass, d: nat)
    requires d < |x| && forall j :: 0 <= j < d ==> InClass(x[j], k)
    ensures forall j :: 0 <= j < d ==> InClass((x + y)[j], k)
    ensures (x + y)[d] == x[d] && (x + y)[d..] == x[d..] + y
  {
  }

  lemma StripLeftAppend(x: string, y: string, k: CharClass)
    requires StripLeft(x, k) != []
    ensures StripLeft(x + y, k) == StripLeft(x, k) + y
  {
    var d := |x| - |StripLeft(x, k)|;
    StripLeftRun(x, k, d);
    RunExtends(x, y, k, d);
    StripLeftAt(x + y, k, d);
  }

  lemma LitLeadIff(s: string, i: nat, p: string)
    ensures LeadAt(s, i, Lit(p)) <==> OccursAt(s, p, i)
  {
    if LeadAt(s, i, Lit(p)) {
      forall j | 0 <= j < |p| ensures s[i..i + |p|][j] == p[j] {
        assert s[i + j] in Lit(p)[j];
      }
    }
    if OccursAt(s, p, i) {
      forall j | 0 <= j < |p| ensures s[i + j] in Lit(p)[j] {
        assert s[i..i + |p|][j] == s[i + j];
      }
    }
  }

  lemma RunLengthExact(s: string, i: nat, k: CharClass, n: nat)
    requires i + n <= |s|
    requires forall j :: i <= j < i + n ==> InClass(s[j], k)
    requires i + n == |s| || !InClass(s[i + n], k)
    ensures RunLength(s, i, k) == n
    decreases n
  {
    if n > 0 {
      RunLengthExact(s, i + 1, k, n - 1);
    }
  }

  /** The search lands on the first position where the pattern matches, once
      every earlier position is known to fail the lead. */
  lemma SearchFindsFirst(s: string, p: Pattern, i: nat)
    requires MatchesAt(s, p, i)
    requires forall j :: 0 <= j < i ==> !LeadAt(s, j, p.lead)
    ensures Search(s, p) == Some(MatchAt(s, p, i))
  {
  }

  lemma SearchNeedsLead(s: string, p: Pattern)
    requires forall j :: !LeadAt(s, j, p.lead)
    ensures Search(s, p) == None
  {
  }

  lemma SearchLeadMissing(s: string, p: Pattern)
    requires |p.lead| > 0
    requires forall j :: 0 <= j < |s| ==> s[j] !in p.lead[0]
    ensures Search(s, p) == None
  {
    forall j: nat ensures !LeadAt(s, j, p.lead) {
      LeadAtHead(s, j, p.lead);
    }
  }

  lemma LeadAtHead(s: string, i: nat, lead: seq<set<char>>)
    ensures LeadAt(s, i, lead) && |lead| > 0 ==> s[i] in lead[0]
  {
    if LeadAt(s, i, lead) && |lead| > 0 {
      assert s[i + 0] in lead[0];
    }
  }

  lemma OccursAtHead(s: string, p: string, i: nat)
    ensures OccursAt(s, p, i) && |p| > 0 ==> s[i] == p[0]
  {
    if OccursAt(s, p, i) && |p| > 0 {
      assert s[i..i + |p|][0] == s[i];
    }
  }

  lemma ReplaceStep(s: string, pat: string, rep: string)
    requires 0 < |pat| <= |s| && !OccursAt(s, pat, 0)
    ensures Replace(s, pat, rep) == [s[0]] + Replace(s[1..], pat, rep)
  {
    assert s[0..|pat|] == s[..|pat|];
  }

  lemma OccursAtTail(s: string, pat: string, j: nat)
    requires |s| > 0
    ensures OccursAt(s[1..], pat, j) <==> OccursAt(s, pat, j + 1)
  {
    if j + |pat| <= |s| - 1 {
      assert s[1..][j..j + |pat|] == s[j + 1..j + 1 + |pat|];
    }
  }

  /** Replacing in `a + b` leaves `a` alone when no occurrence starts inside it. */
  lemma {:induction false} ReplaceSkip(a: string, b: string, pat: string, rep: string)
    requires |pat| > 0
    requires forall j :: 0 <= j < |a| ==> !OccursAt(a + b, pat, j)
    ensures Replace(a + b, pat, rep) == a + Replace(b, pat, rep)
    decreases |a|
  {
    if |a| > 0 {
      var s := a + b;
      assert s[1..] == a[1..] + b;
      if |s| < |pat| {
        assert Replace(s, pat, rep) == s;
        assert Replace(b, pat, rep) == b;
      } else {
        assert !OccursAt(s, pat, 0);
        ReplaceStep(s, pat, rep);
        forall j | 0 <= j < |a| - 1 ensures !OccursAt(a[1..] + b, pat, j) {
          OccursAtTail(s, pat, j);
        }
        ReplaceSkip(a[1..], b, pat, rep);
        assert s[0] == a[0];
        assert [a[0]] + a[1..] == a;
        assert [a[0]] + (a[1..] + Replace(b, pat, rep)) == ([a[0]] + a[1..]) + Replace(b, pat, rep);
      }
    } else {
      assert a + b == b;
    }
  }

  lemma ReplaceAtHead(pat: string, t: string, rep: string)
    requires |pat| > 0
    ensures Replace(pat + t, pat, rep) == rep + Replace(t, pat, rep)
  {
    var s := pat + t;
    assert s[..|pat|] == pat;
    assert s[|pat|..] == t;
  }

  lemma ReplaceAbsent(s: string, pat: string, rep: string)
    requires |pat| > 0
    requires forall j :: 0 <= j < |s| ==> !OccursAt(s, pat, j)
    ensures Replace(s, pat, rep) == s
  {
    assert s + [] == s;
    ReplaceSkip(s, [], pat, rep);
  }

  /** A pattern whose first character never occurs is never replaced. */
  lemma ReplaceHeadMissing(s: string, pat: string, rep: string)
    requires |pat| > 0
    requires forall j :: 0 <= j < |s| ==> s[j] != pat[0]
    ensures Replace(s, pat, rep) == s
  {
    forall j | 0 <= j < |s| ensures !OccursAt(s, pat, j) {
      OccursAtHead(s, pat, j);
    }
    ReplaceAbsent(s, pat, rep);
  }

  lemma IndexOfFindsFirst(s: string, p: string, k: nat)
    requires OccursAt(s, p, k)
    requires forall j :: 0 <= j < k ==> !OccursAt(s, p, j)
    ensures IndexOf(s, p) == Some(k)
  {
  }

  lemma CollapseSpacesFacts(s: string)
    ensures NoDoubleSpace(CollapseSpaces(s))
    ensures |s| > 0 ==> |CollapseSpaces(s)| > 0 && CollapseSpaces(s)[0] == s[0]
    ensures forall k :: NoneIn(s, k) ==> NoneIn(CollapseSpaces(s), k)
    decreases |s|
  {
    if |s| >= 2 {
      CollapseSpacesFacts(s[1..]);
      forall k | NoneIn(s, k) ensures NoneIn(s[1..], k) {
        assert forall i :: 0 <= i < |s| - 1 ==> s[1..][i] == s[i + 1];
      }
    }
  }

  lemma CollapseSpacesNoop(s: string)
    requires NoDoubleSpace(s)
    ensures CollapseSpaces(s) == s
    decreases |s|
  {
    if |s| >= 2 {
      CollapseSpacesNoop(s[1..]);
      assert [s[0]] + s[1..] == s;
    }
  }

  /** A tail that starts with a space and has no double space survives
      `re.sub(' +', ' ', ...)` intact. */
  lemma CollapseSpacesKeepsTail(x: string, b: string) returns (y: string)
    requires |b| > 0 && b[0] == ' ' && NoDoubleSpace(b)
    ensures CollapseSpaces(x + b) == y + b
    decreases |x|
  {
    if |x| == 0 {
      assert x + b == b;
      CollapseSpacesNoop(b);
      y := [];
    } else {
      var s := x + b;
      assert s[1..] == x[1..] + b;
      var y' := CollapseSpacesKeepsTail(x[1..], b);
      if s[0] == ' ' && s[1] == ' ' {
        y := y';
      } else {
        y := [s[0]] + y';
      }
    }
  }

  lemma NoDoubleSpaceConcat(a: string, b: string)
    requires NoDoubleSpace(a) && NoDoubleSpace(b)
    requires |a| > 0 && |b| > 0 ==> a[|a| - 1] != ' ' || b[0] != ' '
    ensures NoDoubleSpace(a + b)
  {
  }

  lemma NoDoubleSpaceNoPair(s: string)
    requires NoDoubleSpace(s)
    ensures forall j :: 0 <= j < |s| ==> !OccursAt(s, "  ", j)
  {
    forall j | 0 <= j < |s| ensures !OccursAt(s, "  ", j) {
      OccursAtHead(s, "  ", j);
      OccursAtHead(s, " ", j + 1);
    }
  }

  lemma TitleCaseAt(s: string, i: nat)
    requires i < |s|
    ensures |TitleCase(s)| == |s|
    ensures TitleCase(s)[i] == if i == 0 || !IsAsciiLetter(s[i - 1]) then ToUpper(s[i]) else ToLower(s[i])
  {
  }

  lemma TitleCaseAppendLeft(a: string, b: string, i: nat)
    requires i < |a|
    ensures TitleCase(a + b)[i] == TitleCase(a)[i]
  {
    TitleCaseAt(a + b, i);
    TitleCaseAt(a, i);
    assert (a + b)[i] == a[i];
    if i > 0 { assert (a + b)[i - 1] == a[i - 1]; }
  }

  lemma TitleCaseAppendRight(a: string, b: string, j: nat)
    requires |a| > 0 ==> !IsAsciiLetter(a[|a| - 1])
    requires j < |b|
    ensures TitleCase(a + b)[|a| + j] == TitleCase(b)[j]
  {
    var s := a + b;
    TitleCaseAt(s, |a| + j);
    TitleCaseAt(b, j);
    assert s[|a| + j] == b[j];
    if j > 0 {
      assert s[|a| + j - 1] == b[j - 1];
    } else if |a| > 0 {
      assert s[|a| - 1] == a[|a| - 1];
    }
  }

  /** `str.title()` works word by word: after a non-letter it starts afresh. */
  lemma TitleCaseAppend(a: string, b: string)
    requires |a| > 0 ==> !IsAsciiLetter(a[|a| - 1])
    ensures TitleCase(a + b) == TitleCase(a) + TitleCase(b)
  {
    var u, t := TitleCase(a + b), TitleCase(a) + TitleCase(b);
    assert |u| == |a + b| == |t|;
    forall i | 0 <= i < |u| ensures u[i] == t[i] {
      if i < |a| {
        TitleCaseAppendLeft(a, b, i);
      } else {
        TitleCaseAppendRight(a, b, i - |a|);
      }
    }
  }

  lemma TitleCaseKeepsSpaces(s: string)
    ensures |TitleCase(s)| == |s|
    ensures forall i :: 0 <= i < |s| ==> (TitleCase(s)[i] == ' ' <==> s[i] == ' ')
    ensures forall i :: 0 <= i < |s| ==> (IsAlnum(TitleCase(s)[i]) <==> IsAlnum(s[i]))
  {
    forall i | 0 <= i < |s|
      ensures (TitleCase(s)[i] == ' ' <==> s[i] == ' ') && (IsAlnum(TitleCase(s)[i]) <==> IsAlnum(s[i]))
    {
      CaseMapKeepsKind(s[i]);
    }
  }

  lemma CaseMapKeepsKind(c: char)
    ensures ToUpper(c) == ' ' <==> c == ' '
    ensures ToLower(c) == ' ' <==> c == ' '
    ensures IsAlnum(ToUpper(c)) <==> IsAlnum(c)
    ensures IsAlnum(ToLower(c)) <==> IsAlnum(c)
  {
  }

  // ---------------------------------------------------------------------------
  // Parenthesised notes, independently of the pattern machinery

  /** `j` is the first position at or after `from` holding `c`. */
  predicate FirstAt(s: string, from: nat, c: char, j: nat) {
    from <= j < |s| && s[j] == c && forall t :: from <= t < j ==> s[t] != c
  }

  /** At `i` the text starts with `w` in any letter case, is followed by at
      least one character other than `close`, and `close` occurs later. */
  predicate NoteAt(s: string, w: string, i: nat, close: char) {
    && i + |w| < |s| && Lower(s[i..i + |w|]) == w && s[i + |w|] != close
    && close in s[i + |w|..]
  }

  /** The pattern `w([^close]+)close`, case-insensitive. */
  function NotePattern(w: string, close: char): Pattern {
    Pattern(LitNoCase(w), AllBut(close), 1, Some(close))
  }

  lemma NoCaseCharIff(c: char, d: char)
    requires !IsAsciiUpper(d)
    ensures c in {ToLower(d), ToUpper(d)} <==> ToLower(c) == d
  {
  }

  lemma LitNoCaseLeadIff(s: string, w: string, i: nat)
    requires forall t :: 0 <= t < |w| ==> !IsAsciiUpper(w[t])
    ensures LeadAt(s, i, LitNoCase(w)) <==> i + |w| <= |s| && Lower(s[i..i + |w|]) == w
  {
    if i + |w| <= |s| {
      var piece := s[i..i + |w|];
      forall t | 0 <= t < |w|
        ensures s[i + t] in LitNoCase(w)[t] <==> Lower(piece)[t] == w[t]
      {
        NoCaseCharIff(s[i + t], w[t]);
        assert piece[t] == s[i + t];
      }
      if LeadAt(s, i, LitNoCase(w)) {
        assert Lower(piece) == w;
      }
      if Lower(piece) == w {
        forall t | 0 <= t < |w| ensures s[i + t] in LitNoCase(w)[t] {
          assert Lower(piece)[t] == w[t];
        }
      }
    }
  }

  lemma OccursAtSingle(s: string, c: char, t: nat)
    ensures OccursAt(s, [c], t) <==> t < |s| && s[t] == c
  {
    if t < |s| {
      assert s[t..t + 1] == [s[t]];
    }
  }

  /** The closing character `NoteAt` promises, found by a plain search. */
  lemma NoteEndFound(s: string, w: string, i: nat, close: char)
    requires NoteAt(s, w, i, close)
    ensures var r := IndexOfFrom(s, [close], i + |w|);
      r.Some? && i + |w| < r.value < |s| && s[r.value] == close
  {
    var t :| 0 <= t < |s[i + |w|..]| && s[i + |w|..][t] == close;
    OccursAtSingle(s, close, i + |w| + t);
    OccursAtSingle(s, close, i + |w|);
    var r := IndexOfFrom(s, [close], i + |w|);
    OccursAtSingle(s, close, r.value);
  }

  /** The text of a note: from the end of `w` to the first closing character. */
  function NoteText(s: string, w: string, i: nat, close: char): string
    requires NoteAt(s, w, i, close)
  {
    NoteEndFound(s, w, i, close);
    s[i + |w|..IndexOfFrom(s, [close], i + |w|).value]
  }

  lemma MatchIsNote(s: string, w: string, i: nat, close: char)
    requires forall t :: 0 <= t < |w| ==> !IsAsciiUpper(w[t])
    requires MatchesAt(s, NotePattern(w, close), i)
    ensures NoteAt(s, w, i, close)
    ensures FirstAt(s, i + |w|, close, MatchAt(s, NotePattern(w, close), i).runEnd)
    ensures Group(s, MatchAt(s, NotePattern(w, close), i)) == NoteText(s, w, i, close)
  {
    LitNoCaseLeadIff(s, w, i);
    var n := RunLength(s, i + |w|, AllBut(close));
    var e := i + |w| + n;
    assert FirstAt(s, i + |w|, close, e);
    assert s[i + |w|..][n] == close;
    OccursAtSingle(s, close, e);
    forall t | i + |w| <= t < e ensures !OccursAt(s, [close], t) {
      OccursAtSingle(s, close, t);
    }
    assert IndexOfFrom(s, [close], i + |w|) == Some(e);
  }

  lemma NoteIsMatch(s: string, w: string, i: nat, close: char)
    requires forall t :: 0 <= t < |w| ==> !IsAsciiUpper(w[t])
    requires NoteAt(s, w, i, close)
    ensures MatchesAt(s, NotePattern(w, close), i)
  {
    LitNoCaseLeadIff(s, w, i);
    var n := RunLength(s, i + |w|, AllBut(close));
    var t :| 0 <= t < |s[i + |w|..]| && s[i + |w|..][t] == close;
    assert s[i + |w| + t] == close;
    assert InClass(s[i + |w|], AllBut(close));
  }

  /** The note pattern matches exactly where `NoteAt` holds, and its capture
      group is the note's text. */
  lemma NoteMatchIff(s: string, w: string, i: nat, close: char)
    requires forall t :: 0 <= t < |w| ==> !IsAsciiUpper(w[t])
    ensures MatchesAt(s, NotePattern(w, close), i) <==> NoteAt(s, w, i, close)
    ensures MatchesAt(s, NotePattern(w, close), i) ==>
      && FirstAt(s, i + |w|, close, MatchAt(s, NotePattern(w, close), i).runEnd)
      && Group(s, MatchAt(s, NotePattern(w, close), i)) == NoteText(s, w, i, close)
  {
    if MatchesAt(s, NotePattern(w, close), i) {
      MatchIsNote(s, w, i, close);
    } else if NoteAt(s, w, i, close) {
      NoteIsMatch(s, w, i, close);
    }
  }

  lemma ReplaceClassAppend(a: string, b: string, k: CharClass, c: char)
    ensures ReplaceClass(a + b, k, c) == ReplaceClass(a, k, c) + ReplaceClass(b, k, c)
  {
  }

  lemma StripLeftSkipsSpaces(x: string, t: string, k: CharClass)
    requires AllIn(x, k)
    ensures StripLeft(x + t, k) == StripLeft(t, k)
    decreases |x|
  {
    if |x| > 0 {
      assert (x + t)[1..] == x[1..] + t;
      StripLeftSkipsSpaces(x[1..], t, k);
    } else {
      assert x + t == t;
    }
  }

  /** `strip()` keeps a tail that neither starts nor ends with whitespace. */
  lemma StripKeepsTail(x: string, t: string)
    requires |t| > 0 && !IsSpace(t[0]) && !IsSpace(t[|t| - 1])
    ensures EndsWith(Strip(x + t), t)
  {
    var lx := StripLeft(x, Whitespace);
    var l := StripLeft(x + t, Whitespace);
    if lx == [] {
      assert x[..|x| - |lx|] == x;
      StripLeftSkipsSpaces(x, t, Whitespace);
      StripByNoop(t, Whitespace);
      assert l == t;
    } else {
      StripLeftAppend(x, t, Whitespace);
    }
    assert EndsWith(l, t);
    assert l[|l| - 1] == t[|t| - 1];
    StripByNoop(l, Whitespace);
    assert StripBy(l, Whitespace) == l;
    assert StripRight(l, Whitespace) == l;
  }

  lemma OccursAtChars(s: string, p: string, i: nat)
    ensures OccursAt(s, p, i) ==> forall t :: 0 <= t < |p| ==> s[i + t] == p[t]
  {
    if OccursAt(s, p, i) {
      forall t | 0 <= t < |p| ensures s[i + t] == p[t] {
        assert s[i..i + |p|][t] == s[i + t];
      }
    }
  }

  lemma LitNoCaseChars(s: string, w: string, i: nat)
    requires forall t :: 0 <= t < |w| ==> !IsAsciiUpper(w[t])
    ensures LeadAt(s, i, LitNoCase(w)) ==> forall t :: 0 <= t < |w| ==> ToLower(s[i + t]) == w[t]
  {
    LitNoCaseLeadIff(s, w, i);
    if LeadAt(s, i, LitNoCase(w)) {
      forall t | 0 <= t < |w| ensures ToLower(s[i + t]) == w[t] {
        assert Lower(s[i..i + |w|])[t] == ToLower(s[i + t]);
      }
    }
  }

  lemma SubAllStep(s: string, p: Pattern, m: Match)
    requires |p.lead| > 0 && Search(s, p) == Some(m)
    ensures SubAll(s, p) == s[..m.start] + SubAll(s[m.end..], p)
  {
  }

  /** `re.sub` of a text whose one match is followed by text it keeps. */
  lemma SubAllOfOneMatch(s: string, p: Pattern, m: Match)
    requires |p.lead| > 0 && Search(s, p) == Some(m) && SubAll(s[m.end..], p) == s[m.end..]
    ensures SubAll(s, p) == s[..m.start] + s[m.end..]
  {
    SubAllStep(s, p, m);
  }

  lemma SubAllEmpty(p: Pattern)
    requires |p.lead| > 0
    ensures SubAll([], p) == []
  {
    SearchLeadMissing([], p);
  }

  /** `re.sub` whose first match runs to the end of the text keeps only what
      precedes it. */
  lemma SubAllOfLastMatch(s: string, p: Pattern, m: Match)
    requires |p.lead| > 0
    requires Search(s, p) == Some(m) && m.end == |s|
    ensures SubAll(s, p) == s[..m.start]
  {
    SubAllEmpty(p);
    assert s[|s|..] == [];
    assert s[..m.start] + [] == s[..m.start];
  }
}
