/** The manifest reader: fuzzy column lookup, the header-row rule, the
    Google Sheets export address, column roles and the era list. */
module Parser {
  import opened Text
  import opened ParseErrors

  // ---------------------------------------------------------------------------
  // Fuzzy column lookup (`_find_column`)

  predicate IsNormChar(c: char) { IsAsciiLower(c) || IsDigit(c) }

  /** `re.sub(r'[^a-z0-9]', '', s.lower())`. */
  function Normalize(s: string): (r: string)
    ensures |r| <= |s|
    ensures forall i :: 0 <= i < |r| ==> IsNormChar(r[i])
    decreases |s|
  {
    if |s| == 0 then ""
    else (if IsNormChar(ToLower(s[0])) then [ToLower(s[0])] else "") + Normalize(s[1..])
  }

  lemma {:induction false} NormalizeAppend(a: string, b: string)
    ensures Normalize(a + b) == Normalize(a) + Normalize(b)
    decreases |a|
  {
    if |a| > 0 {
      assert (a + b)[1..] == a[1..] + b;
      NormalizeAppend(a[1..], b);
    } else {
      assert a + b == b;
    }
  }

  /** Text already made of `[a-z0-9]` is its own normal form. */
  lemma {:induction false} NormalizeOfNormal(s: string)
    requires forall i :: 0 <= i < |s| ==> IsNormChar(s[i])
    ensures Normalize(s) == s
    decreases |s|
  {
    if |s| > 0 {
      NormalizeOfNormal(s[1..]);
      assert s == [s[0]] + s[1..];
    }
  }

  lemma NormalizeIdempotent(s: string)
    ensures Normalize(Normalize(s)) == Normalize(s)
  {
    NormalizeOfNormal(Normalize(s));
  }

  /** The second form `_find_column` tries: the normalised column without
      its final `s`, when the normalised keyword does not end in `s`. */
  function Singular(normCol: string, normKeyword: string): (r: string)
    ensures |r| <= |normCol| && r == normCol[..|r|]
  {
    if EndsWith(normCol, "s") && !EndsWith(normKeyword, "s") then normCol[..|normCol| - 1] else normCol
  }

  /** The test `_find_column` applies to one column. */
  predicate ColumnMatches(col: string, keyword: string) {
    var nk := Normalize(keyword);
    var nc := Normalize(col);
    Contains(nc, nk) || Contains(Singular(nc, nk), nk)
  }

  lemma ContainsInPrefix(s: string, k: nat, p: string)
    requires k <= |s|
    ensures Contains(s[..k], p) ==> Contains(s, p)
  {
    ContainsIff(s[..k], p);
    ContainsIff(s, p);
    if Contains(s[..k], p) {
      var i: nat :| OccursAt(s[..k], p, i);
      assert s[..k][i..i + |p|] == s[i..i + |p|];
      assert OccursAt(s, p, i);
    }
  }

  /** The singular fallback never changes the outcome: the singular is a
      prefix of the normalised column, so whatever it contains the column
      contains too. A column matches exactly when its normal form contains
      the keyword's. */
  lemma SingularFallbackRedundant(col: string, keyword: string)
    ensures ColumnMatches(col, keyword) <==> Contains(Normalize(col), Normalize(keyword))
  {
    var nk := Normalize(keyword);
    var nc := Normalize(col);
    var sg := Singular(nc, nk);
    ContainsInPrefix(nc, |sg|, nk);
  }

  /** The index of the first column from `from` on that the keyword matches. */
  function FirstMatchFrom(columns: seq<string>, keyword: string, from: nat): (r: Option<nat>)
    requires from <= |columns|
    ensures r.Some? ==> from <= r.value < |columns| && ColumnMatches(columns[r.value], keyword)
    ensures forall j :: from <= j < |columns| && (r.None? || j < r.value) ==> !ColumnMatches(columns[j], keyword)
    decreases |columns| - from
  {
    if from == |columns| then None
    else if ColumnMatches(columns[from], keyword) then Some(from)
    else FirstMatchFrom(columns, keyword, from + 1)
  }

  /** Column `i` is the first one the keyword matches. */
  predicate FirstMatchAt(columns: seq<string>, keyword: string, i: nat) {
    && i < |columns| && ColumnMatches(columns[i], keyword)
    && forall j :: 0 <= j < i ==> !ColumnMatches(columns[j], keyword)
  }

  /** What `_find_column(columns, keyword)` returns. */
  function FirstColumn(columns: seq<string>, keyword: string): (r: Option<string>)
    ensures r.Some? ==> r.value in columns
  {
    match FirstMatchFrom(columns, keyword, 0)
    case None => None
    case Some(i) => Some(columns[i])
  }

  /** `_find_column` finds nothing exactly when no column matches, and
      otherwise the first column that does. */
  lemma FirstColumnFacts(columns: seq<string>, keyword: string)
    ensures FirstColumn(columns, keyword).None? <==>
      forall j :: 0 <= j < |columns| ==> !ColumnMatches(columns[j], keyword)
    ensures FirstColumn(columns, keyword).Some? ==> ColumnMatches(FirstColumn(columns, keyword).value, keyword)
    ensures FirstColumn(columns, keyword).Some? ==>
      exists i: nat :: FirstMatchAt(columns, keyword, i) && columns[i] == FirstColumn(columns, keyword).value
  {
    var m := FirstMatchFrom(columns, keyword, 0);
    if m.Some? {
      assert FirstMatchAt(columns, keyword, m.value);
    }
  }

  /** `_find_column`: a linear search that returns the first matching column. */
  method FindColumn(columns: seq<string>, keyword: string) returns (r: Option<string>)
    ensures r == FirstColumn(columns, keyword)
    ensures r.Some? ==> r.value in columns && ColumnMatches(r.value, keyword)
                        && exists i: nat :: FirstMatchAt(columns, keyword, i) && columns[i] == r.value
    ensures r.None? <==> forall j :: 0 <= j < |columns| ==> !ColumnMatches(columns[j], keyword)
  {
    FirstColumnFacts(columns, keyword);
    var i := 0;
    while i < |columns|
      invariant i <= |columns|
      invariant FirstMatchFrom(columns, keyword, i) == FirstMatchFrom(columns, keyword, 0)
    {
      if ColumnMatches(columns[i], keyword) {
        return Some(columns[i]);
      }
      i := i + 1;
    }
    return None;
  }

  // ---------------------------------------------------------------------------
  // The header row

  /** A line `parse_input` takes as the header: after strip, not blank and not
      made of commas alone, that is, holding some character other than a comma. */
  predicate IsHeaderLine(line: string) {
    var t := Strip(line);
    exists i :: 0 <= i < |t| && t[i] != ','
  }

  /** The index of the first header line from `from` on. */
  function HeaderFrom(lines: seq<string>, from: nat): (r: Option<nat>)
    requires from <= |lines|
    ensures r.Some? ==> from <= r.value < |lines| && IsHeaderLine(lines[r.value])
    ensures forall j :: from <= j < |lines| && (r.None? || j < r.value) ==> !IsHeaderLine(lines[j])
    decreases |lines| - from
  {
    if from == |lines| then None
    else if IsHeaderLine(lines[from]) then Some(from)
    else HeaderFrom(lines, from + 1)
  }

  function HeaderIndex(lines: seq<string>): (r: Option<nat>)
    ensures r.Some? ==> r.value < |lines| && IsHeaderLine(lines[r.value])
    ensures forall j :: 0 <= j < |lines| && (r.None? || j < r.value) ==> !IsHeaderLine(lines[j])
  {
    HeaderFrom(lines, 0)
  }

  /** The header scan: the first line that is neither blank nor all commas;
      every line before it is blank or commas only, and without one there is
      no header. */
  method FindHeaderRow(lines: seq<string>) returns (r: Option<nat>)
    ensures r == HeaderIndex(lines)
    ensures r.Some? ==> r.value < |lines| && IsHeaderLine(lines[r.value])
    ensures forall j :: 0 <= j < |lines| && (r.None? || j < r.value) ==> !IsHeaderLine(lines[j])
  {
    var i := 0;
    while i < |lines|
      invariant i <= |lines|
      invariant forall j :: 0 <= j < i ==> !IsHeaderLine(lines[j])
      invariant HeaderFrom(lines, i) == HeaderIndex(lines)
    {
      if IsHeaderLine(lines[i]) {
        return Some(i);
      }
      i := i + 1;
    }
    return None;
  }

  // ---------------------------------------------------------------------------
  // Where the CSV text comes from (`get_csv_from_url`)

  const GoogleUserContent := "googleusercontent.com"
  const CsvFormat := "format=csv"
  const SheetsPath := "docs.google.com/spreadsheets"
  const SheetIdPath := "/spreadsheets/d/"
  const SheetsOrigin := "https://docs.google.com"
  const ExportHead := SheetsOrigin + SheetIdPath
  const ExportTail := "/export?format=csv&gid="
  const DefaultGid := "0"

  /** `re.search(r'/spreadsheets/d/([a-zA-Z0-9-_]+)', url).group(1)`. */
  function SheetId(url: string): Option<string> {
    RunAfter(url, SheetIdPath, SheetIdChar)
  }

  /** `[?&]gid=([0-9]+)`. */
  function GidPattern(): Pattern {
    Pattern([{'?', '&'}] + Lit("gid="), Digits, 1, None)
  }

  function Gid(url: string): (r: Option<string>)
    ensures r.Some? ==> |r.value| > 0 && AllIn(r.value, Digits)
  {
    match Search(url, GidPattern())
    case None => None
    case Some(m) => Some(Group(url, m))
  }

  /** The tab to export: the `gid` parameter, `"0"` without one. */
  function TabOf(url: string): (r: string)
    ensures Gid(url).None? ==> r == DefaultGid
    ensures Gid(url).Some? ==> r == Gid(url).value
  {
    match Gid(url) case None => DefaultGid case Some(g) => g
  }

  /** The CSV export address of a spreadsheet tab. */
  function ExportUrl(id: string, gid: string): string {
    ExportHead + id + ExportTail + gid
  }

  /** The request `get_csv_from_url` makes: the link itself, the export
      address of the sheet it names, or none for a Sheets link without an id. */
  datatype CsvRequest = FetchAsIs(url: string) | FetchExport(url: string) | BadSheetsUrl

  function CsvRequestFor(url: string): (r: CsvRequest)
    ensures r.FetchAsIs? <==>
      (Contains(url, GoogleUserContent) && Contains(url, CsvFormat)) || !Contains(url, SheetsPath)
    ensures r.FetchAsIs? ==> r.url == url
    ensures r.BadSheetsUrl? <==>
      && !(Contains(url, GoogleUserContent) && Contains(url, CsvFormat))
      && Contains(url, SheetsPath) && SheetId(url).None?
    ensures r.FetchExport? ==> SheetId(url).Some? && r.url == ExportUrl(SheetId(url).value, TabOf(url))
  {
    if Contains(url, GoogleUserContent) && Contains(url, CsvFormat) then FetchAsIs(url)
    else if Contains(url, SheetsPath) then
      match SheetId(url)
      case None => BadSheetsUrl
      case Some(id) => FetchExport(ExportUrl(id, TabOf(url)))
    else FetchAsIs(url)
  }

  /** The reply to the one GET request: the body text, or a failure (an
      exception or an error status). */
  datatype Reply = Replied(text: string) | Unreachable

  /** `get_csv_from_url(url)`, given the reply to its request. */
  function CsvFromUrl(url: string, reply: Reply): (r: Option<string>)
    ensures r.Some? ==> reply == Replied(r.value) && !CsvRequestFor(url).BadSheetsUrl?
    ensures CsvRequestFor(url).FetchExport? ==> (r.Some? <==> reply.Replied? && |reply.text| > 100)
    ensures CsvRequestFor(url).FetchAsIs? ==> (r.Some? <==> reply.Replied?)
  {
    match CsvRequestFor(url)
    case BadSheetsUrl => None
    case FetchAsIs(_) => if reply.Replied? then Some(reply.text) else None
    case FetchExport(_) => if reply.Replied? && |reply.text| > 100 then Some(reply.text) else None
  }

  // ---------------------------------------------------------------------------
  // Facts about Sheets addresses

  /** The characters of the export head that the address searches look at. */
  lemma ExportHeadParts()
    ensures |ExportHead| == 39
    ensures ExportHead[8..36] == SheetsPath
    ensures ExportHead[23..] == SheetIdPath
    ensures ExportHead[2] == 't'
  {
    ExportHeadSheetsPath();
  }

  lemma OccursAtChar(s: string, p: string, i: nat, t: nat)
    ensures OccursAt(s, p, i) && t < |p| ==> s[i + t] == p[t]
  {
    if OccursAt(s, p, i) && t < |p| {
      assert s[i..i + |p|][t] == s[i + t];
    }
  }

  lemma ExportHeadSheetsPath()
    ensures ExportHead[8..36] == SheetsPath
  {
    assert SheetsOrigin[8..] == "docs.google.com";
    assert SheetIdPath[..13] == "/spreadsheets";
    assert SheetsPath == "docs.google.com" + "/spreadsheets";
    assert ExportHead[8..36] == SheetsOrigin[8..] + SheetIdPath[..13];
  }

  lemma ExportHeadNoQuery()
    ensures forall j :: 0 <= j < |ExportHead| ==> ExportHead[j] != '?' && ExportHead[j] != '&'
  {
  }

  lemma ExportHeadDots()
    ensures forall j :: 0 <= j < |ExportHead| && ExportHead[j] == '.' ==> j == 12 || j == 19
  {
  }

  lemma ExportHeadSlashes()
    ensures forall j :: 0 <= j < 23 && ExportHead[j] == '/' ==> ExportHead[j + 1] != 's'
    ensures forall j :: 23 < j < 39 && ExportHead[j] == '/' ==> j == 36 || j == 38
    ensures ExportHead[37] == 'd'
  {
  }

  /** A link that starts with the export head names the spreadsheet whose id
      follows it. */
  lemma SheetIdOfLink(id: string, rest: string)
    requires |id| > 0 && AllIn(id, SheetIdChar)
    requires rest == [] || !InClass(rest[0], SheetIdChar)
    ensures SheetId(ExportHead + id + rest) == Some(id)
    ensures Contains(ExportHead + id + rest, SheetsPath)
  {
    var s := ExportHead + id + rest;
    var p := RunPattern(SheetIdPath, SheetIdChar);
    SheetLinkSlices(id, rest);
    SheetLinkNoEarlierPath(id, rest);
    ContainsIff(s, SheetsPath);
    RunLengthExact(s, 39, SheetIdChar, |id|);
    RunPatternIff(s, SheetIdPath, SheetIdChar, 23);
    SearchFindsFirst(s, p, 23);
  }

  lemma SheetLinkSlices(id: string, rest: string)
    ensures var s := ExportHead + id + rest;
      && |s| == 39 + |id| + |rest|
      && OccursAt(s, SheetIdPath, 23) && OccursAt(s, SheetsPath, 8)
      && s[39..39 + |id|] == id
      && (forall j :: 39 <= j < 39 + |id| ==> s[j] == id[j - 39])
      && (rest != [] ==> s[39 + |id|] == rest[0])
  {
    var s := ExportHead + id + rest;
    ExportHeadParts();
    assert s[23..39] == ExportHead[23..];
    assert s[8..36] == ExportHead[8..36];
  }

  lemma SheetLinkNoEarlierPath(id: string, rest: string)
    ensures forall j :: 0 <= j < 23 ==> !LeadAt(ExportHead + id + rest, j, RunPattern(SheetIdPath, SheetIdChar).lead)
  {
    var s := ExportHead + id + rest;
    var p := RunPattern(SheetIdPath, SheetIdChar);
    ExportHeadParts();
    ExportHeadSlashes();
    assert p.lead[0] == {'/'} && p.lead[1] == {'s'};
    forall j | 0 <= j < 23 ensures !LeadAt(s, j, p.lead) {
      LeadAtHead(s, j, p.lead);
      LeadAtSecond(s, j, p.lead);
      assert s[j] == ExportHead[j] && s[j + 1] == ExportHead[j + 1];
    }
  }

  /** No `googleusercontent.com` where the only dots sit at 12 and 19 and
      the third character is `t`. */
  lemma NoUserContent(s: string)
    requires |s| > 2 && s[2] == 't'
    requires forall j :: 0 <= j < |s| && s[j] == '.' ==> j == 12 || j == 19
    ensures !Contains(s, GoogleUserContent)
  {
    assert |GoogleUserContent| == 21 && GoogleUserContent[17] == '.' && GoogleUserContent[0] == 'g';
    ContainsIff(s, GoogleUserContent);
    forall i: nat ensures !OccursAt(s, GoogleUserContent, i) {
      OccursAtChars(s, GoogleUserContent, i);
    }
  }

  /** A link that starts with the export head, followed by an id and text
      free of dots, mentions no `googleusercontent.com`. */
  lemma LinkNotUserContent(id: string, rest: string)
    requires AllIn(id, SheetIdChar) && NoneIn(rest, OneOf({'.'}))
    ensures !Contains(ExportHead + id + rest, GoogleUserContent)
  {
    var s := ExportHead + id + rest;
    ExportHeadParts();
    ExportHeadDots();
    forall j | 0 <= j < |s| ensures s[j] == '.' ==> j == 12 || j == 19 {
      if j < 39 {
        assert s[j] == ExportHead[j];
      } else if j < 39 + |id| {
        assert s[j] == id[j - 39];
      } else {
        assert s[j] == rest[j - 39 - |id|];
      }
    }
    NoUserContent(s);
  }

  /** The `gid` parameter of a link whose only earlier `?` and `&` are not
      followed by `g`. */
  lemma GidAfter(prefix: string, sep: char, gid: string)
    requires sep in {'?', '&'}
    requires forall j :: 0 <= j < |prefix| && prefix[j] in {'?', '&'} ==> j + 1 < |prefix| && prefix[j + 1] != 'g'
    requires |gid| > 0 && AllIn(gid, Digits)
    ensures Gid(prefix + [sep] + "gid=" + gid) == Some(gid)
  {
    var s := prefix + [sep] + "gid=" + gid;
    var p := GidPattern();
    var k := |prefix|;
    GidLead();
    assert s[k] == sep && s[k + 1..k + 5] == "gid=" && s[k + 5..] == gid;
    assert LeadAt(s, k, p.lead) by {
      forall t | 0 <= t < 5 ensures s[k + t] in p.lead[t] {
        if t > 0 {
          assert s[k + t] == s[k + 1..k + 5][t - 1];
        }
      }
    }
    RunLengthExact(s, k + 5, Digits, |gid|);
    forall j | 0 <= j < k ensures !LeadAt(s, j, p.lead) {
      assert s[j] == prefix[j];
      LeadAtHead(s, j, p.lead);
      if prefix[j] in {'?', '&'} {
        assert s[j + 1] == prefix[j + 1];
        LeadAtSecond(s, j, p.lead);
      }
    }
    assert MatchesAt(s, p, k);
    SearchFindsFirst(s, p, k);
    var m := MatchAt(s, p, k);
    assert m.runStart == k + 5 && m.runEnd == |s|;
    assert Group(s, m) == gid;
  }

  lemma LeadAtSecond(s: string, i: nat, lead: seq<set<char>>)
    ensures LeadAt(s, i, lead) && |lead| > 1 ==> s[i + 1] in lead[1]
  {
  }

  lemma GidLead()
    ensures GidPattern().lead == [{'?', '&'}, {'g'}, {'i'}, {'d'}, {'='}]
  {
  }

  lemma ExportTailParts()
    ensures ExportTail == "/export?format=csv" + ['&'] + "gid="
    ensures forall j :: 0 <= j < 18 && "/export?format=csv"[j] in {'?', '&'} ==> j == 7
    ensures "/export?format=csv"[8] == 'f'
    ensures NoneIn(ExportTail, OneOf({'.'}))
  {
  }

  /** In the export address only the `?` of the query is followed by a
      letter other than `g`, and nothing before it is a `?` or `&`. */
  lemma ExportQueryMarks(id: string)
    requires AllIn(id, SheetIdChar)
    ensures var prefix := ExportHead + id + "/export?format=csv";
      forall j :: 0 <= j < |prefix| && prefix[j] in {'?', '&'} ==> j + 1 < |prefix| && prefix[j + 1] != 'g'
  {
    var q := "/export?format=csv";
    var prefix := ExportHead + id + q;
    ExportHeadParts();
    ExportHeadNoQuery();
    ExportTailParts();
    forall j | 0 <= j < |prefix| ensures prefix[j] in {'?', '&'} ==> j + 1 < |prefix| && prefix[j + 1] != 'g' {
      if j < 39 {
        assert prefix[j] == ExportHead[j];
      } else if j < 39 + |id| {
        assert prefix[j] == id[j - 39];
      } else {
        assert prefix[j] == q[j - 39 - |id|];
        if j - 39 - |id| == 7 {
          assert prefix[j + 1] == q[8];
        }
      }
    }
  }

  lemma ExportUrlGid(id: string, gid: string)
    requires AllIn(id, SheetIdChar)
    requires |gid| > 0 && AllIn(gid, Digits)
    ensures Gid(ExportUrl(id, gid)) == Some(gid)
  {
    var prefix := ExportHead + id + "/export?format=csv";
    ExportTailParts();
    assert ExportUrl(id, gid) == prefix + ['&'] + "gid=" + gid;
    ExportQueryMarks(id);
    GidAfter(prefix, '&', gid);
  }

  lemma ExportUrlIsSheetsLink(id: string, gid: string)
    requires |id| > 0 && AllIn(id, SheetIdChar)
    requires AllIn(gid, Digits)
    ensures SheetId(ExportUrl(id, gid)) == Some(id)
    ensures Contains(ExportUrl(id, gid), SheetsPath)
    ensures !Contains(ExportUrl(id, gid), GoogleUserContent)
  {
    var rest := ExportTail + gid;
    assert ExportUrl(id, gid) == ExportHead + id + rest;
    ExportTailParts();
    assert NoneIn(rest, OneOf({'.'})) by {
      forall t | 0 <= t < |rest| ensures rest[t] != '.' {
        if t >= |ExportTail| {
          assert rest[t] == gid[t - |ExportTail|];
        }
      }
    }
    SheetIdOfLink(id, rest);
    LinkNotUserContent(id, rest);
  }

  /** The export address names the spreadsheet and the tab it was built
      from, and `get_csv_from_url` turns it into itself. */
  lemma ExportUrlRoundTrip(id: string, gid: string)
    requires |id| > 0 && AllIn(id, SheetIdChar)
    requires |gid| > 0 && AllIn(gid, Digits)
    ensures SheetId(ExportUrl(id, gid)) == Some(id)
    ensures Gid(ExportUrl(id, gid)) == Some(gid)
    ensures CsvRequestFor(ExportUrl(id, gid)) == FetchExport(ExportUrl(id, gid))
  {
    ExportUrlIsSheetsLink(id, gid);
    ExportUrlGid(id, gid);
  }

  lemma NoDotsIn(rest: string)
    requires NoneIn(rest, OneOf({'?', '&', '.'}))
    ensures NoneIn(rest, OneOf({'.'}))
  {
    forall j | 0 <= j < |rest| ensures !InClass(rest[j], OneOf({'.'})) {
      assert !InClass(rest[j], OneOf({'?', '&', '.'}));
    }
  }

  lemma NoQueryNoGid(s: string)
    requires NoneIn(s, OneOf({'?', '&'}))
    ensures Gid(s) == None
  {
    GidLead();
    SearchLeadMissing(s, GidPattern());
  }

  /** A Sheets link without a `?gid=` or `&gid=` parameter exports the first
      tab (a `#gid=` fragment is not such a parameter). */
  lemma SheetsLinkDefaultTab(id: string, rest: string)
    requires |id| > 0 && AllIn(id, SheetIdChar)
    requires rest == [] || !InClass(rest[0], SheetIdChar)
    requires NoneIn(rest, OneOf({'?', '&', '.'}))
    ensures CsvRequestFor(ExportHead + id + rest) == FetchExport(ExportUrl(id, DefaultGid))
  {
    var s := ExportHead + id + rest;
    SheetIdOfLink(id, rest);
    NoDotsIn(rest);
    LinkNotUserContent(id, rest);
    PrefixHasNoQuery(id, rest);
    NoQueryNoGid(s);
  }

  /** A Sheets link with a `?gid=` or `&gid=` parameter exports that tab. */
  lemma SheetsLinkTab(id: string, rest: string, sep: char, gid: string)
    requires |id| > 0 && AllIn(id, SheetIdChar)
    requires rest == [] || !InClass(rest[0], SheetIdChar)
    requires NoneIn(rest, OneOf({'?', '&', '.'}))
    requires sep in {'?', '&'} && |gid| > 0 && AllIn(gid, Digits)
    ensures CsvRequestFor(ExportHead + id + rest + [sep] + "gid=" + gid) == FetchExport(ExportUrl(id, gid))
  {
    var prefix := ExportHead + id + rest;
    var tail := rest + [sep] + "gid=" + gid;
    assert prefix + [sep] + "gid=" + gid == ExportHead + id + tail;
    TabTailHead(rest, sep, gid);
    TabTailHasNoDot(rest, sep, gid);
    SheetIdOfLink(id, tail);
    LinkNotUserContent(id, tail);
    PrefixHasNoQuery(id, rest);
    NoQueryMarks(prefix);
    GidAfter(prefix, sep, gid);
  }

  lemma TabTailHead(rest: string, sep: char, gid: string)
    requires rest == [] || !InClass(rest[0], SheetIdChar)
    requires sep in {'?', '&'}
    ensures var tail := rest + [sep] + "gid=" + gid; !InClass(tail[0], SheetIdChar)
  {
    var tail := rest + [sep] + "gid=" + gid;
    if rest == [] {
      assert tail[0] == sep;
    } else {
      assert tail[0] == rest[0];
    }
  }

  lemma NoQueryMarks(prefix: string)
    requires NoneIn(prefix, OneOf({'?', '&'}))
    ensures forall j :: 0 <= j < |prefix| && prefix[j] in {'?', '&'} ==> j + 1 < |prefix| && prefix[j + 1] != 'g'
  {
    forall j | 0 <= j < |prefix| ensures prefix[j] !in {'?', '&'} {
      assert !InClass(prefix[j], OneOf({'?', '&'}));
    }
  }

  lemma TabTailHasNoDot(rest: string, sep: char, gid: string)
    requires NoneIn(rest, OneOf({'?', '&', '.'}))
    requires sep in {'?', '&'} && AllIn(gid, Digits)
    ensures NoneIn(rest + [sep] + "gid=" + gid, OneOf({'.'}))
  {
    var tail := rest + [sep] + "gid=" + gid;
    forall t | 0 <= t < |tail| ensures tail[t] != '.' {
      if t < |rest| {
        assert tail[t] == rest[t];
      } else if t < |rest| + 5 {
        assert tail[t] == ([sep] + "gid=")[t - |rest|];
      } else {
        assert tail[t] == gid[t - |rest| - 5];
      }
    }
  }

  lemma PrefixHasNoQuery(id: string, rest: string)
    requires AllIn(id, SheetIdChar)
    requires NoneIn(rest, OneOf({'?', '&', '.'}))
    ensures NoneIn(ExportHead + id + rest, OneOf({'?', '&'}))
  {
    var prefix := ExportHead + id + rest;
    ExportHeadParts();
    ExportHeadNoQuery();
    forall j | 0 <= j < |prefix| ensures !InClass(prefix[j], OneOf({'?', '&'})) {
      if j < 39 {
        assert prefix[j] == ExportHead[j];
      } else if j < 39 + |id| {
        assert prefix[j] == id[j - 39];
      } else {
        assert prefix[j] == rest[j - 39 - |id|];
      }
    }
  }

  /** A Sheets link with nothing that can be an id after `/spreadsheets/d/`
      is refused before any request, whatever the reply would have been. */
  lemma SheetsLinkWithoutId(rest: string, reply: Reply)
    requires rest == [] || !InClass(rest[0], SheetIdChar)
    requires NoneIn(rest, OneOf({'/', '.'}))
    ensures CsvRequestFor(ExportHead + rest) == BadSheetsUrl
    ensures CsvFromUrl(ExportHead + rest, reply) == None
  {
    var s := ExportHead + rest;
    assert s == ExportHead + [] + rest;
    assert NoneIn(rest, OneOf({'.'}));
    LinkNotUserContent([], rest);
    SheetLinkSlices([], rest);
    ContainsIff(s, SheetsPath);
    forall i: nat ensures !RunFollows(s, SheetIdPath, SheetIdChar, i) {
      NoPathFollowedById(rest, i);
    }
  }

  lemma NoPathFollowedById(rest: string, i: nat)
    requires rest == [] || !InClass(rest[0], SheetIdChar)
    requires NoneIn(rest, OneOf({'/'}))
    ensures !RunFollows(ExportHead + rest, SheetIdPath, SheetIdChar, i)
  {
    var s := ExportHead + rest;
    ExportHeadParts();
    ExportHeadSlashes();
    assert SheetIdPath[0] == '/' && SheetIdPath[1] == 's' && SheetIdPath[13] == '/';
    OccursAtChar(s, SheetIdPath, i, 0);
    OccursAtChar(s, SheetIdPath, i, 1);
    if i < 23 {
      assert s[i] == ExportHead[i] && s[i + 1] == ExportHead[i + 1];
    } else if i == 23 {
      if 39 < |s| {
        assert s[39] == rest[0];
      }
    } else if i < 39 {
      assert s[i] == ExportHead[i] && s[37] == 'd';
      if i == 38 && 51 < |s| {
        OccursAtChar(s, SheetIdPath, i, 13);
        assert s[51] == rest[12];
      }
    } else if i < |s| {
      assert s[i] == rest[i - 39];
    }
  }

  // ---------------------------------------------------------------------------
  // Column roles (`parse_input`, after the table is read)

  /** Python truthiness of an optional column name: present and not empty. */
  predicate Truthy(o: Option<string>) {
    o.Some? && o.value != ""
  }

  /** Python's `a or b`. */
  function Or(a: Option<string>, b: Option<string>): Option<string> {
    if Truthy(a) then a else b
  }

  const SongsKeyword := "songs"
  const NameKeyword := "name"
  const TitleKeyword := "title"
  const LinkKeyword := "link"
  const LengthKeyword := "available length"
  const QualityKeyword := "quality"

  /** `df.columns = [col.strip() for col in df.columns]`. */
  function StripColumns(columns: seq<string>): (r: seq<string>)
    ensures |r| == |columns|
    ensures forall i :: 0 <= i < |r| ==> r[i] == Strip(columns[i])
  {
    seq(|columns|, i requires 0 <= i < |columns| => Strip(columns[i]))
  }

  /** The renamed columns carry no surrounding whitespace. */
  lemma StrippedColumnsAreClean(columns: seq<string>)
    ensures forall i :: 0 <= i < |columns| ==> Strip(StripColumns(columns)[i]) == StripColumns(columns)[i]
  {
    forall i | 0 <= i < |columns| ensures Strip(StripColumns(columns)[i]) == StripColumns(columns)[i] {
      StripByIdempotent(columns[i], Whitespace);
    }
  }

  /** The column the track names are read from: a `songs` match, else a
      `name` match, else a `title` match. */
  function NameColumn(columns: seq<string>): Option<string> {
    Or(Or(FirstColumn(columns, SongsKeyword), FirstColumn(columns, NameKeyword)), FirstColumn(columns, TitleKeyword))
  }

  /** No empty column name can match a keyword with a non-empty normal form. */
  lemma MatchIsNotEmpty(col: string, keyword: string)
    requires Normalize(keyword) != ""
    ensures ColumnMatches(col, keyword) ==> col != ""
  {
    if col == "" {
      assert Normalize(col) == "";
      assert Singular("", Normalize(keyword)) == "";
    }
  }

  lemma KeywordsNormalized()
    ensures Normalize(SongsKeyword) == SongsKeyword
    ensures Normalize(NameKeyword) == NameKeyword
    ensures Normalize(TitleKeyword) == TitleKeyword
    ensures Normalize(LinkKeyword) == LinkKeyword
  {
    NormalizeOfNormal(SongsKeyword);
    NormalizeOfNormal(NameKeyword);
    NormalizeOfNormal(TitleKeyword);
    NormalizeOfNormal(LinkKeyword);
  }

  /** A column found for a keyword is truthy. */
  lemma FoundIsTruthy(columns: seq<string>, keyword: string)
    requires Normalize(keyword) != ""
    ensures FirstColumn(columns, keyword).Some? ==> Truthy(FirstColumn(columns, keyword))
  {
    var r := FirstColumn(columns, keyword);
    if r.Some? {
      MatchIsNotEmpty(r.value, keyword);
    }
  }

  /** The name column's precedence: `songs`, then `name`, then `title`, each
      the first column in order that matches. */
  lemma NameColumnPrecedence(columns: seq<string>)
    ensures (exists i :: 0 <= i < |columns| && ColumnMatches(columns[i], SongsKeyword)) ==>
      NameColumn(columns) == FirstColumn(columns, SongsKeyword)
    ensures ((forall i :: 0 <= i < |columns| ==> !ColumnMatches(columns[i], SongsKeyword)) &&
             (exists i :: 0 <= i < |columns| && ColumnMatches(columns[i], NameKeyword))) ==>
      NameColumn(columns) == FirstColumn(columns, NameKeyword)
    ensures ((forall i :: 0 <= i < |columns| ==> !ColumnMatches(columns[i], SongsKeyword)) &&
             (forall i :: 0 <= i < |columns| ==> !ColumnMatches(columns[i], NameKeyword))) ==>
      NameColumn(columns) == FirstColumn(columns, TitleKeyword)
    ensures NameColumn(columns).None? <==> forall i :: 0 <= i < |columns| ==>
      !ColumnMatches(columns[i], SongsKeyword) && !ColumnMatches(columns[i], NameKeyword) &&
      !ColumnMatches(columns[i], TitleKeyword)
    ensures NameColumn(columns).Some? ==> Truthy(NameColumn(columns))
  {
    KeywordsNormalized();
    FoundIsTruthy(columns, SongsKeyword);
    FoundIsTruthy(columns, NameKeyword);
    FoundIsTruthy(columns, TitleKeyword);
  }

  // ---------------------------------------------------------------------------
  // Rows and the era list

  /** A row of cells, in column order: text, or missing (NaN). */
  type Row = seq<Option<string>>

  /** A manifest as `pd.read_csv(..., dtype=str)` yields it. */
  datatype Table = Table(columns: seq<string>, rows: seq<Row>)

  const EraColumn := "Era"

  /** The position of the first occurrence of `x`, `|s|` when there is none. */
  function FirstIndex(s: seq<string>, x: string): (r: nat)
    ensures r <= |s| && (r < |s| <==> x in s)
    ensures r < |s| ==> s[r] == x
    ensures forall j :: 0 <= j < r ==> s[j] != x
  {
    if s == [] then 0 else if s[0] == x then 0 else 1 + FirstIndex(s[1..], x)
  }

  /** Two columns share the name `name`. */
  predicate Repeated(columns: seq<string>, name: string) {
    var k := FirstIndex(columns, name);
    k < |columns| && name in columns[k + 1..]
  }

  lemma RepeatedIff(columns: seq<string>, name: string)
    ensures Repeated(columns, name) <==>
      exists i, j :: 0 <= i < j < |columns| && columns[i] == name && columns[j] == name
  {
    var k := FirstIndex(columns, name);
    if Repeated(columns, name) {
      var d :| 0 <= d < |columns[k + 1..]| && columns[k + 1..][d] == name;
      assert columns[k + 1 + d] == name;
    }
    if exists i, j :: 0 <= i < j < |columns| && columns[i] == name && columns[j] == name {
      var i, j :| 0 <= i < j < |columns| && columns[i] == name && columns[j] == name;
      assert k <= i;
      assert columns[k + 1..][j - k - 1] == name;
    }
  }

  /** `row[name]`: the cell under the first column of that name; a cell the
      row does not reach is missing. */
  function Cell(columns: seq<string>, row: Row, name: string): Option<string>
    requires name in columns
  {
    var k := FirstIndex(columns, name);
    if k < |row| then row[k] else None
  }

  /** `df[link_col].notnull() & (df[link_col].str.strip() != '')`. */
  predicate HasLink(columns: seq<string>, row: Row, linkCol: string)
    requires linkCol in columns
  {
    var c := Cell(columns, row, linkCol);
    c.Some? && Strip(c.value) != ""
  }

  /** The era of a row with a link, when it has one. */
  function EraCellOf(columns: seq<string>, row: Row, linkCol: string): seq<string>
    requires linkCol in columns && EraColumn in columns
  {
    var era := Cell(columns, row, EraColumn);
    if HasLink(columns, row, linkCol) && era.Some? then [era.value] else []
  }

  /** `valid_rows['Era'].dropna()`, in row order. */
  function EraCells(columns: seq<string>, rows: seq<Row>, linkCol: string): seq<string>
    requires linkCol in columns && EraColumn in columns
    decreases |rows|
  {
    if rows == [] then []
    else EraCells(columns, rows[..|rows| - 1], linkCol) + EraCellOf(columns, rows[|rows| - 1], linkCol)
  }

  /** `drop_duplicates()`: the first occurrence of each value, kept in place. */
  function Dedup(s: seq<string>): (r: seq<string>)
    ensures forall i, j :: 0 <= i < j < |r| ==> r[i] != r[j]
    ensures forall x :: x in r <==> x in s
    decreases |s|
  {
    if s == [] then []
    else
      var d := Dedup(s[..|s| - 1]);
      if s[|s| - 1] in d then d else d + [s[|s| - 1]]
  }

  lemma FirstIndexInPrefix(p: seq<string>, s: seq<string>, x: string)
    requires x in p && |p| <= |s| && p == s[..|p|]
    ensures x in s && FirstIndex(s, x) == FirstIndex(p, x)
  {
    var a := FirstIndex(p, x);
    assert forall j :: 0 <= j < |p| ==> p[j] == s[j];
    assert s[a] == x;
  }

  /** Values taken from a prefix keep their first positions in the whole. */
  lemma OrderInPrefix(p: seq<string>, s: seq<string>, d: seq<string>)
    requires |p| <= |s| && p == s[..|p|]
    requires forall x :: x in d ==> x in p
    requires forall i, j :: 0 <= i < j < |d| ==> FirstIndex(p, d[i]) < FirstIndex(p, d[j])
    ensures forall i, j :: 0 <= i < j < |d| ==> FirstIndex(s, d[i]) < FirstIndex(s, d[j])
  {
    forall i, j | 0 <= i < j < |d| ensures FirstIndex(s, d[i]) < FirstIndex(s, d[j]) {
      FirstIndexInPrefix(p, s, d[i]);
      FirstIndexInPrefix(p, s, d[j]);
      assert FirstIndex(p, d[i]) < FirstIndex(p, d[j]);
    }
  }

  /** The kept values stand in the order of their first appearance. */
  lemma {:induction false} DedupKeepsFirstAppearanceOrder(s: seq<string>)
    ensures forall i, j :: 0 <= i < j < |Dedup(s)| ==> FirstIndex(s, Dedup(s)[i]) < FirstIndex(s, Dedup(s)[j])
    decreases |s|
  {
    if s != [] {
      var p := s[..|s| - 1];
      var last := s[|s| - 1];
      var d := Dedup(p);
      DedupKeepsFirstAppearanceOrder(p);
      OrderInPrefix(p, s, d);
      if last !in d {
        assert FirstIndex(s, last) == |s| - 1;
        var r := d + [last];
        assert Dedup(s) == r;
        forall i, j | 0 <= i < j < |r| ensures FirstIndex(s, r[i]) < FirstIndex(s, r[j]) {
          assert r[i] == d[i];
          if j < |d| {
            assert r[j] == d[j];
          } else {
            assert r[j] == last;
            FirstIndexInPrefix(p, s, d[i]);
          }
        }
      } else {
        assert Dedup(s) == d;
      }
    }
  }

  /** The row has a link and `e` in its `Era` cell. */
  predicate CarriesEra(columns: seq<string>, row: Row, linkCol: string, e: string)
    requires linkCol in columns && EraColumn in columns
  {
    HasLink(columns, row, linkCol) && Cell(columns, row, EraColumn) == Some(e)
  }

  /** Every era of a row with a link is among the era cells. */
  lemma {:induction false} EraCellsComplete(columns: seq<string>, rows: seq<Row>, linkCol: string, e: string, k: nat)
    requires linkCol in columns && EraColumn in columns
    requires k < |rows| && CarriesEra(columns, rows[k], linkCol, e)
    ensures e in EraCells(columns, rows, linkCol)
    decreases |rows|
  {
    var p := rows[..|rows| - 1];
    EraCellsStep(columns, rows, linkCol, e);
    if k < |p| {
      EraCellsComplete(columns, p, linkCol, e, k);
      assert e in EraCells(columns, p, linkCol);
    } else {
      assert k == |rows| - 1;
    }
  }

  /** Every era cell comes from a row with a link. */
  lemma {:induction false} EraCellSource(columns: seq<string>, rows: seq<Row>, linkCol: string, e: string) returns (k: nat)
    requires linkCol in columns && EraColumn in columns
    requires e in EraCells(columns, rows, linkCol)
    ensures k < |rows| && CarriesEra(columns, rows[k], linkCol, e)
    decreases |rows|
  {
    var p := rows[..|rows| - 1];
    EraCellsStep(columns, rows, linkCol, e);
    if CarriesEra(columns, rows[|rows| - 1], linkCol, e) {
      k := |rows| - 1;
    } else {
      k := EraCellSource(columns, p, linkCol, e);
      assert p[k] == rows[k];
    }
  }

  lemma EraCellsIff(columns: seq<string>, rows: seq<Row>, linkCol: string, e: string)
    requires linkCol in columns && EraColumn in columns
    ensures e in EraCells(columns, rows, linkCol) <==>
      exists k :: 0 <= k < |rows| && CarriesEra(columns, rows[k], linkCol, e)
  {
    if e in EraCells(columns, rows, linkCol) {
      var k := EraCellSource(columns, rows, linkCol, e);
    }
    if exists k :: 0 <= k < |rows| && CarriesEra(columns, rows[k], linkCol, e) {
      var k :| 0 <= k < |rows| && CarriesEra(columns, rows[k], linkCol, e);
      EraCellsComplete(columns, rows, linkCol, e, k);
    }
  }

  lemma EraCellsStep(columns: seq<string>, rows: seq<Row>, linkCol: string, e: string)
    requires linkCol in columns && EraColumn in columns && rows != []
    ensures e in EraCells(columns, rows, linkCol) <==>
      e in EraCells(columns, rows[..|rows| - 1], linkCol) || CarriesEra(columns, rows[|rows| - 1], linkCol, e)
  {
    var last := rows[|rows| - 1];
    assert e in EraCellOf(columns, last, linkCol) <==> CarriesEra(columns, last, linkCol, e);
  }

  /** `valid_rows['Era'].dropna().drop_duplicates().tolist()`. */
  function EraList(columns: seq<string>, rows: seq<Row>, linkCol: string): seq<string>
    requires linkCol in columns && EraColumn in columns
  {
    Dedup(EraCells(columns, rows, linkCol))
  }

  /** The era list holds each era of a row with a link exactly once, and
      nothing else, in the order the eras first appear. */
  lemma EraListFacts(columns: seq<string>, rows: seq<Row>, linkCol: string)
    requires linkCol in columns && EraColumn in columns
    ensures forall i, j :: 0 <= i < j < |EraList(columns, rows, linkCol)| ==>
      EraList(columns, rows, linkCol)[i] != EraList(columns, rows, linkCol)[j]
    ensures forall e :: e in EraList(columns, rows, linkCol) <==>
      exists k :: 0 <= k < |rows| && CarriesEra(columns, rows[k], linkCol, e)
    ensures forall i, j :: 0 <= i < j < |EraList(columns, rows, linkCol)| ==>
      FirstIndex(EraCells(columns, rows, linkCol), EraList(columns, rows, linkCol)[i]) <
      FirstIndex(EraCells(columns, rows, linkCol), EraList(columns, rows, linkCol)[j])
  {
    forall e ensures e in EraCells(columns, rows, linkCol) <==>
      exists k :: 0 <= k < |rows| && CarriesEra(columns, rows[k], linkCol, e)
    {
      EraCellsIff(columns, rows, linkCol, e);
    }
    DedupKeepsFirstAppearanceOrder(EraCells(columns, rows, linkCol));
  }

  // ---------------------------------------------------------------------------
  // Errors and outcomes of `parse_input`

  /** The table and the column roles `parse_input` hands back on success. */
  datatype Manifest = Manifest(
    table: Table, eras: seq<string>, nameCol: string, linkCol: string,
    lengthCol: Option<string>, qualityCol: Option<string>)

  /** `(manifest, None)`, `(None, message)`, or an exception out of
      `parse_input`: the `KeyError` of a manifest without an `Era` column, or
      the `AttributeError` of a link or `Era` column whose name two columns
      share (`df[column]` is then a table, which has neither `.str` nor
      `.tolist()`). */
  datatype ParseOutcome =
    | Parsed(manifest: Manifest)
    | Refused(error: ParseError)
    | EraLookupFails
    | DuplicateColumn(column: string)

  /** What `pd.read_csv` makes of its input: a table, or the text of the
      exception it raised. */
  datatype CsvRead = ReadTable(table: Table) | ReadError(reason: string)

  /** The world `parse_input` consults: whether the file exists, its lines,
      `pd.read_csv` on the file with a given header row, the HTTP reply to the
      request for a link, and `pd.read_csv` on downloaded text. */
  datatype Environment = Environment(
    fileExists: bool, fileLines: seq<string>, readFile: nat -> CsvRead,
    reply: Reply, readText: string -> CsvRead)

  /** Everything after the table is read: the stripped columns, the column
      roles, and the era list. */
  function Resolve(t: Table): (r: ParseOutcome)
    ensures r.Refused? ==> r.error.MissingColumns? || r.error == NoEras
  {
    var columns := StripColumns(t.columns);
    var name := NameColumn(columns);
    var link := FirstColumn(columns, LinkKeyword);
    if !Truthy(name) || !Truthy(link) then Refused(MissingColumns(columns))
    else ReadEras(columns, t.rows, name.value, link.value)
  }

  /** The era list, once both required columns are found: the link filter,
      `valid_rows['Era'].dropna().drop_duplicates().tolist()`, and the check
      that some era was found. */
  function ReadEras(columns: seq<string>, rows: seq<Row>, nameCol: string, linkCol: string): (r: ParseOutcome)
    requires linkCol in columns
    ensures r.Refused? ==> r.error == NoEras
  {
    if Repeated(columns, linkCol) then DuplicateColumn(linkCol)
    else if EraColumn !in columns then EraLookupFails
    else if Repeated(columns, EraColumn) then DuplicateColumn(EraColumn)
    else
      var eras := EraList(columns, rows, linkCol);
      if eras == [] then Refused(NoEras)
      else Parsed(Manifest(Table(columns, rows), eras, nameCol, linkCol,
                           FirstColumn(columns, LengthKeyword), FirstColumn(columns, QualityKeyword)))
  }

  function Load(read: CsvRead): ParseOutcome {
    match read
    case ReadError(reason) => Refused(Unparsable(reason))
    case ReadTable(t) => Resolve(t)
  }

  /** Line `h` is the first line that is neither blank nor commas only. */
  predicate FirstHeaderAt(lines: seq<string>, h: nat) {
    && h < |lines| && IsHeaderLine(lines[h])
    && forall j :: 0 <= j < h ==> !IsHeaderLine(lines[j])
  }

  /** How far `parse_input` gets before the table is read: stopped with an
      error, or holding what `pd.read_csv` made of the input. */
  datatype Source = Stopped(error: ParseError) | Read(read: CsvRead)

  /** The errors `parse_input` can stop with before it reads a table. */
  predicate IsEarlyError(e: ParseError) {
    e == FileNotFound || e == NoHeaderRow || e == NoInput || e == DownloadFailed
  }

  /** The first half of `parse_input`: a file, when one is named, wins over a
      link; the file must exist and hold a header line, the link must yield
      non-empty text. */
  function Acquire(file: Option<string>, link: Option<string>, env: Environment): (r: Source)
    ensures r.Stopped? ==> IsEarlyError(r.error)
    ensures r == Stopped(FileNotFound) <==> Truthy(file) && !env.fileExists
    ensures r == Stopped(NoHeaderRow) <==>
      Truthy(file) && env.fileExists && forall j :: 0 <= j < |env.fileLines| ==> !IsHeaderLine(env.fileLines[j])
    ensures r == Stopped(NoInput) <==> !Truthy(file) && !Truthy(link)
    ensures r == Stopped(DownloadFailed) <==>
      !Truthy(file) && Truthy(link) && !Truthy(CsvFromUrl(link.value, env.reply))
    ensures forall h :: Truthy(file) && env.fileExists && FirstHeaderAt(env.fileLines, h) ==>
      r == Read(env.readFile(h))
    ensures !Truthy(file) && Truthy(link) && Truthy(CsvFromUrl(link.value, env.reply)) ==>
      r == Read(env.readText(CsvFromUrl(link.value, env.reply).value))
  {
    if Truthy(file) then
      if !env.fileExists then Stopped(FileNotFound)
      else
        match HeaderIndex(env.fileLines)
        case None => Stopped(NoHeaderRow)
        case Some(h) => assert FirstHeaderAt(env.fileLines, h); Read(env.readFile(h))
    else if Truthy(link) then
      var content := CsvFromUrl(link.value, env.reply);
      if !Truthy(content) then Stopped(DownloadFailed) else Read(env.readText(content.value))
    else Stopped(NoInput)
  }

  /** A blank first line is counted by the header scan: the header on the
      second line is read as row 1, although `read_csv`, which skips blank
      lines, numbers that line 0. */
  lemma BlankLineCounted(file: Option<string>, link: Option<string>, env: Environment)
    requires Truthy(file) && env.fileExists && |env.fileLines| >= 2
    requires Strip(env.fileLines[0]) == "" && IsHeaderLine(env.fileLines[1])
    ensures Acquire(file, link, env) == Read(env.readFile(1))
  {
    assert FirstHeaderAt(env.fileLines, 1);
  }

  /** `parse_input(file, link)`: the early errors are those of `Acquire`, and
      the rest are decided by the table read. */
  function Parse(file: Option<string>, link: Option<string>, env: Environment): (r: ParseOutcome)
    ensures forall e :: IsEarlyError(e) ==> (r == Refused(e) <==> Acquire(file, link, env) == Stopped(e))
    ensures Acquire(file, link, env).Read? ==> r == Load(Acquire(file, link, env).read)
  {
    match Acquire(file, link, env)
    case Stopped(e) => Refused(e)
    case Read(read) => Load(read)
  }

  /** `_find_column(c, 'songs') or _find_column(c, 'name') or _find_column(c, 'title')`,
      each lookup made only when the ones before it found nothing. */
  method FindNameColumn(columns: seq<string>) returns (name: Option<string>)
    ensures name == NameColumn(columns)
  {
    name := FindColumn(columns, SongsKeyword);
    if !Truthy(name) {
      name := FindColumn(columns, NameKeyword);
    }
    if !Truthy(name) {
      name := FindColumn(columns, TitleKeyword);
    }
  }

  /** The column lookups of `parse_input`, in the order it makes them. */
  method ResolveColumns(t: Table) returns (r: ParseOutcome)
    ensures r == Resolve(t)
  {
    var columns := StripColumns(t.columns);
    var name := FindNameColumn(columns);
    var link := FindColumn(columns, LinkKeyword);
    var length := FindColumn(columns, LengthKeyword);
    var quality := FindColumn(columns, QualityKeyword);
    if !Truthy(name) || !Truthy(link) {
      return Refused(MissingColumns(columns));
    }
    if Repeated(columns, link.value) {
      return DuplicateColumn(link.value);
    }
    if EraColumn !in columns {
      return EraLookupFails;
    }
    if Repeated(columns, EraColumn) {
      return DuplicateColumn(EraColumn);
    }
    var eras := EraList(columns, t.rows, link.value);
    if eras == [] {
      return Refused(NoEras);
    }
    return Parsed(Manifest(Table(columns, t.rows), eras, name.value, link.value, length, quality));
  }

  /** `parse_input`, step by step: the file checks and header scan, or the
      download, then the read and the column lookups. */
  method ParseInput(file: Option<string>, link: Option<string>, env: Environment) returns (r: ParseOutcome)
    ensures r == Parse(file, link, env)
  {
    var read: CsvRead;
    if Truthy(file) {
      if !env.fileExists {
        return Refused(FileNotFound);
      }
      var h := FindHeaderRow(env.fileLines);
      if h.None? {
        return Refused(NoHeaderRow);
      }
      read := env.readFile(h.value);
    } else if Truthy(link) {
      var content := CsvFromUrl(link.value, env.reply);
      if !Truthy(content) {
        return Refused(DownloadFailed);
      }
      read := env.readText(content.value);
    } else {
      return Refused(NoInput);
    }
    match read
    case ReadError(reason) =>
      r := Refused(Unparsable(reason));
    case ReadTable(t) =>
      r := ResolveColumns(t);
  }

  // ---------------------------------------------------------------------------
  // What `Resolve` promises

  /** Both required lookups are truthy exactly when they find a column. */
  lemma FoundColumnsAreTruthy(columns: seq<string>)
    ensures Truthy(NameColumn(columns)) <==> NameColumn(columns).Some?
    ensures Truthy(FirstColumn(columns, LinkKeyword)) <==> FirstColumn(columns, LinkKeyword).Some?
  {
    KeywordsNormalized();
    FoundIsTruthy(columns, SongsKeyword);
    FoundIsTruthy(columns, NameKeyword);
    FoundIsTruthy(columns, TitleKeyword);
    FoundIsTruthy(columns, LinkKeyword);
  }

  /** The required columns are missing exactly when no name keyword or no
      `link` finds a column. */
  lemma MissingColumnsIff(t: Table)
    ensures Resolve(t) == Refused(MissingColumns(StripColumns(t.columns))) <==>
      NameColumn(StripColumns(t.columns)).None? || FirstColumn(StripColumns(t.columns), LinkKeyword).None?
  {
    FoundColumnsAreTruthy(StripColumns(t.columns));
  }

  /** `Resolve` past the check for the required columns is `ReadEras`. */
  lemma ResolveReadsEras(t: Table)
    requires NameColumn(StripColumns(t.columns)).Some? && FirstColumn(StripColumns(t.columns), LinkKeyword).Some?
    ensures FirstColumn(StripColumns(t.columns), LinkKeyword).value in StripColumns(t.columns)
    ensures Resolve(t) == ReadEras(StripColumns(t.columns), t.rows, NameColumn(StripColumns(t.columns)).value,
                                   FirstColumn(StripColumns(t.columns), LinkKeyword).value)
  {
    FoundColumnsAreTruthy(StripColumns(t.columns));
  }

  /** The exceptions `ReadEras` raises: the link column's name shared, or
      no `Era` column, or the `Era` column's name shared, tested in that order. */
  lemma ReadErasRaises(columns: seq<string>, rows: seq<Row>, nameCol: string, linkCol: string)
    requires linkCol in columns
    ensures ReadEras(columns, rows, nameCol, linkCol) == EraLookupFails <==>
      !Repeated(columns, linkCol) && EraColumn !in columns
    ensures ReadEras(columns, rows, nameCol, linkCol).DuplicateColumn? <==>
      Repeated(columns, linkCol) || (EraColumn in columns && Repeated(columns, EraColumn))
    ensures ReadEras(columns, rows, nameCol, linkCol).DuplicateColumn? ==>
      ReadEras(columns, rows, nameCol, linkCol).column == if Repeated(columns, linkCol) then linkCol else EraColumn
  {
  }

  /** With both required columns found and the link column's name its own,
      the missing `Era` column is the `KeyError`. */
  lemma EraLookupFailsIff(t: Table)
    ensures Resolve(t) == EraLookupFails <==>
      NameColumn(StripColumns(t.columns)).Some? && FirstColumn(StripColumns(t.columns), LinkKeyword).Some? &&
      !Repeated(StripColumns(t.columns), FirstColumn(StripColumns(t.columns), LinkKeyword).value) &&
      EraColumn !in StripColumns(t.columns)
  {
    var columns := StripColumns(t.columns);
    FoundColumnsAreTruthy(columns);
    if NameColumn(columns).Some? && FirstColumn(columns, LinkKeyword).Some? {
      ResolveReadsEras(t);
      ReadErasRaises(columns, t.rows, NameColumn(columns).value, FirstColumn(columns, LinkKeyword).value);
    }
  }

  /** The link column's name, then the `Era` column's name, shared by two
      columns after stripping raises out of `parse_input`. */
  lemma DuplicateColumnIff(t: Table)
    ensures Resolve(t).DuplicateColumn? <==>
      NameColumn(StripColumns(t.columns)).Some? && FirstColumn(StripColumns(t.columns), LinkKeyword).Some? &&
      (|| Repeated(StripColumns(t.columns), FirstColumn(StripColumns(t.columns), LinkKeyword).value)
       || (EraColumn in StripColumns(t.columns) && Repeated(StripColumns(t.columns), EraColumn)))
    ensures Resolve(t).DuplicateColumn? ==>
      Resolve(t).column == if Repeated(StripColumns(t.columns), FirstColumn(StripColumns(t.columns), LinkKeyword).value)
                           then FirstColumn(StripColumns(t.columns), LinkKeyword).value else EraColumn
  {
    var columns := StripColumns(t.columns);
    FoundColumnsAreTruthy(columns);
    if NameColumn(columns).Some? && FirstColumn(columns, LinkKeyword).Some? {
      ResolveReadsEras(t);
      ReadErasRaises(columns, t.rows, NameColumn(columns).value, FirstColumn(columns, LinkKeyword).value);
    }
  }

  /** No era is listed exactly when no row with a link has an `Era` value. */
  lemma EraListEmptyIff(columns: seq<string>, rows: seq<Row>, linkCol: string)
    requires linkCol in columns && EraColumn in columns
    ensures EraList(columns, rows, linkCol) == [] <==>
      forall k, e :: 0 <= k < |rows| ==> !CarriesEra(columns, rows[k], linkCol, e)
  {
    EraListFacts(columns, rows, linkCol);
    var eras := EraList(columns, rows, linkCol);
    if eras != [] {
      assert eras[0] in eras;
      var k :| 0 <= k < |rows| && CarriesEra(columns, rows[k], linkCol, eras[0]);
    } else {
      forall k, e | 0 <= k < |rows| ensures CarriesEra(columns, rows[k], linkCol, e) ==> e in eras {
        if CarriesEra(columns, rows[k], linkCol, e) {
          EraCellsComplete(columns, rows, linkCol, e, k);
        }
      }
      forall k, e | 0 <= k < |rows| ensures !CarriesEra(columns, rows[k], linkCol, e) {
        assert e !in eras;
      }
    }
  }

  /** `No eras found` exactly when the columns are there but no row with a
      link has a value in its `Era` cell. */
  lemma NoErasIff(t: Table)
    ensures Resolve(t) == Refused(NoEras) <==>
      NameColumn(StripColumns(t.columns)).Some? && FirstColumn(StripColumns(t.columns), LinkKeyword).Some? &&
      !Repeated(StripColumns(t.columns), FirstColumn(StripColumns(t.columns), LinkKeyword).value) &&
      EraColumn in StripColumns(t.columns) && !Repeated(StripColumns(t.columns), EraColumn) &&
      forall k, e :: 0 <= k < |t.rows| ==>
        !CarriesEra(StripColumns(t.columns), t.rows[k], FirstColumn(StripColumns(t.columns), LinkKeyword).value, e)
  {
    var columns := StripColumns(t.columns);
    FoundColumnsAreTruthy(columns);
    var link := FirstColumn(columns, LinkKeyword);
    if link.Some? && EraColumn in columns {
      EraListEmptyIff(columns, t.rows, link.value);
    }
  }

  /** A parsed manifest: its columns are the stripped ones; its name, link,
      length and quality columns are the lookups' results; its eras are, once
      each, the `Era` cells of the rows with a link, and there is at least one. */
  lemma ParsedManifest(t: Table)
    requires Resolve(t).Parsed?
    ensures Resolve(t).manifest.table == Table(StripColumns(t.columns), t.rows)
    ensures Some(Resolve(t).manifest.nameCol) == NameColumn(StripColumns(t.columns))
    ensures Some(Resolve(t).manifest.linkCol) == FirstColumn(StripColumns(t.columns), LinkKeyword)
    ensures Resolve(t).manifest.lengthCol == FirstColumn(StripColumns(t.columns), LengthKeyword)
    ensures Resolve(t).manifest.qualityCol == FirstColumn(StripColumns(t.columns), QualityKeyword)
    ensures EraColumn in StripColumns(t.columns) && Resolve(t).manifest.linkCol in StripColumns(t.columns)
    ensures !Repeated(StripColumns(t.columns), EraColumn) && !Repeated(StripColumns(t.columns), Resolve(t).manifest.linkCol)
    ensures Resolve(t).manifest.eras == EraList(StripColumns(t.columns), t.rows, Resolve(t).manifest.linkCol)
    ensures Resolve(t).manifest.eras != []
    ensures forall i, j :: 0 <= i < j < |Resolve(t).manifest.eras| ==>
      Resolve(t).manifest.eras[i] != Resolve(t).manifest.eras[j]
    ensures forall e :: e in Resolve(t).manifest.eras <==>
      exists k :: 0 <= k < |t.rows| && CarriesEra(StripColumns(t.columns), t.rows[k], Resolve(t).manifest.linkCol, e)
  {
    var columns := StripColumns(t.columns);
    FoundColumnsAreTruthy(columns);
    ResolveReadsEras(t);
    var link := FirstColumn(columns, LinkKeyword).value;
    ReadErasParsed(columns, t.rows, NameColumn(columns).value, link);
    EraListFacts(columns, t.rows, link);
  }

  lemma ReadErasParsed(columns: seq<string>, rows: seq<Row>, nameCol: string, linkCol: string)
    requires linkCol in columns && ReadEras(columns, rows, nameCol, linkCol).Parsed?
    ensures EraColumn in columns && !Repeated(columns, EraColumn) && !Repeated(columns, linkCol)
    ensures ReadEras(columns, rows, nameCol, linkCol).manifest ==
      Manifest(Table(columns, rows), EraList(columns, rows, linkCol), nameCol, linkCol,
               FirstColumn(columns, LengthKeyword), FirstColumn(columns, QualityKeyword))
    ensures EraList(columns, rows, linkCol) != []
  {
  }
}
