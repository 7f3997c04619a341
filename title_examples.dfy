/** The clean-up of song names evaluated on the shapes of name the manifests
    use: each lemma fixes a shape over arbitrary plain words, then a concrete
    instance pins down one name. */
module TitleExamples {
  import opened Text
  import opened Downloader

  /** A plain word or phrase: letters, digits and single inner spaces. */
  predicate Plain(s: string) {
    && |s| > 0 && s[0] != ' ' && s[|s| - 1] != ' ' && NoDoubleSpace(s)
    && forall i :: 0 <= i < |s| ==> IsAlnum(s[i]) || s[i] == ' '
  }

  /** Text the final clean-up leaves alone: non-empty, no line breaks, no
      double spaces, no whitespace at either end. */
  predicate Settled(s: string) {
    && |s| > 0 && !IsSpace(s[0]) && !IsSpace(s[|s| - 1])
    && NoneIn(s, OneOf({'\n', '\r'})) && NoDoubleSpace(s)
  }

  lemma PlainIsSettled(s: string)
    requires Plain(s)
    ensures Settled(s)
  {
  }

  lemma PlainIsStripped(s: string)
    requires Plain(s)
    ensures Strip(s) == s
  {
    StripByNoop(s, Whitespace);
  }

  /** A text that is already clean passes the final clean-up unchanged. */
  lemma CleanSpacingNoop(s: string)
    requires NoneIn(s, OneOf({'\n', '\r'})) && NoDoubleSpace(s)
    requires |s| > 0 ==> !IsSpace(s[0]) && !IsSpace(s[|s| - 1])
    ensures CleanSpacing(s) == s
  {
    ReplaceClassNoop(s, OneOf({'\n'}), ' ');
    ReplaceClassNoop(s, OneOf({'\r'}), ' ');
    CollapseSpacesNoop(s);
    StripByNoop(s, Whitespace);
  }

  // ---------------------------------------------------------------------------
  // Stages

  /** Every `(` in `pre` is followed, inside `pre`, by a character whose
      lower case is not `c`. */
  predicate NoOpenBefore(pre: string, c: char) {
    forall j :: 0 <= j < |pre| && pre[j] == '(' ==> j + 1 < |pre| && ToLower(pre[j + 1]) != c
  }

  lemma LowerOfLower(w: string)
    requires forall t :: 0 <= t < |w| ==> !IsAsciiUpper(w[t])
    ensures Lower(w) == w
  {
  }

  lemma NoteMatchesAtEnd(pre: string, w: string, body: string)
    requires forall t :: 0 <= t < |w| ==> !IsAsciiUpper(w[t])
    requires |body| > 0 && forall t :: 0 <= t < |body| ==> body[t] != ')'
    ensures var s := pre + w + body + ")";
      && MatchesAt(s, NotePattern(w, ')'), |pre|)
      && MatchAt(s, NotePattern(w, ')'), |pre|) == Match(|pre|, |pre| + |w|, |pre| + |w| + |body|, |s|)
  {
    var s := pre + w + body + ")";
    var i := |pre|;
    var rs := i + |w|;
    assert s[i..rs] == w;
    forall t | rs <= t < rs + |body| ensures InClass(s[t], AllBut(')')) {
      assert s[t] == body[t - rs];
    }
    RunLengthExact(s, rs, AllBut(')'), |body|);
    LitNoCaseLeadIff(s, w, i);
    LowerOfLower(w);
  }

  lemma NoNoteBefore(pre: string, w: string, rest: string)
    requires |w| >= 2 && w[0] == '(' && forall t :: 0 <= t < |w| ==> !IsAsciiUpper(w[t])
    requires NoOpenBefore(pre, w[1])
    ensures forall j :: 0 <= j < |pre| ==> !LeadAt(pre + rest, j, LitNoCase(w))
  {
    var s := pre + rest;
    forall j | 0 <= j < |pre| ensures !LeadAt(s, j, LitNoCase(w)) {
      LitNoCaseChars(s, w, j);
      NoCaseCharIff(s[j], '(');
      assert s[j] == pre[j];
      if pre[j] == '(' {
        assert s[j + 1] == pre[j + 1];
      }
    }
  }

  /** A note `w body)` at the very end, with no note starting earlier, is what
      the search finds. */
  lemma NoteAtEnd(pre: string, w: string, body: string)
    requires |w| >= 2 && w[0] == '(' && forall t :: 0 <= t < |w| ==> !IsAsciiUpper(w[t])
    requires NoOpenBefore(pre, w[1])
    requires |body| > 0 && forall t :: 0 <= t < |body| ==> body[t] != ')'
    ensures var s := pre + w + body + ")";
      Search(s, NotePattern(w, ')')) == Some(Match(|pre|, |pre| + |w|, |pre| + |w| + |body|, |s|))
  {
    var s := pre + w + body + ")";
    NoteMatchesAtEnd(pre, w, body);
    NoNoteBefore(pre, w, w + body + ")");
    assert pre + (w + body + ")") == s;
    SearchFindsFirst(s, NotePattern(w, ')'), |pre|);
  }

  /** Removing a note that sits at the end and nowhere earlier. */
  lemma RemoveNoteAtEnd(pre: string, note: string)
    requires |note| >= 2 && note[0] == '(' && !IsAsciiUpper(note[1])
    requires NoOpenBefore(pre, note[1])
    ensures Replace(pre + note, note, "") == pre
  {
    var s := pre + note;
    forall j | 0 <= j < |pre| ensures !OccursAt(s, note, j) {
      OccursAtChars(s, note, j);
      assert s[j] == pre[j];
      if pre[j] == '(' {
        assert s[j + 1] == pre[j + 1];
      }
    }
    ReplaceSkip(pre, note, note, "");
    ReplaceAtHead(note, [], "");
    assert note + [] == note;
    assert pre + [] == pre;
  }

  /** `TakeProducer` once the search result and both stripped parts are known. */
  lemma TakeProducerOfMatch(s: string, m: Match, p: string, x: string)
    requires Search(s, ProducerNote) == Some(m)
    requires m.runStart <= m.runEnd <= |s| && m.start <= m.end <= |s|
    requires Strip(Group(s, m)) == p
    requires Strip(Replace(s, s[m.start..m.end], "")) == x
    ensures TakeProducer(s) == (Some(p), x)
  {
  }

  lemma ProducerNoteAtEnd(x: string, p: string)
    requires NoOpenBefore(x, 'p')
    requires Plain(p)
    ensures var s := (x + " ") + (ProducerWord + p + ")");
      var m := Match(|x| + 1, |x| + 1 + |ProducerWord|, |x| + 1 + |ProducerWord| + |p|, |s|);
      && Search(s, ProducerNote) == Some(m)
      && Group(s, m) == p
      && s[m.start..m.end] == ProducerWord + p + ")"
  {
    var pre := x + " ";
    assert NoOpenBefore(pre, 'p');
    NoteAtEnd(pre, ProducerWord, p);
    assert pre + ProducerWord + p + ")" == (x + " ") + (ProducerWord + p + ")");
  }

  lemma ProducerNoteRemoved(x: string, p: string)
    requires |x| > 0 && !IsSpace(x[0]) && !IsSpace(x[|x| - 1])
    requires NoOpenBefore(x, 'p')
    ensures var note := ProducerWord + p + ")";
      Strip(Replace((x + " ") + note, note, "")) == x
  {
    var pre := x + " ";
    assert NoOpenBefore(pre, 'p');
    RemoveNoteAtEnd(pre, ProducerWord + p + ")");
    StripTrailingSpace(x);
    StripByNoop(x, Whitespace);
  }

  /** A trailing `(prod. P)` note is taken off whole. */
  lemma TakeProducerAtEnd(x: string, p: string)
    requires |x| > 0 && !IsSpace(x[0]) && !IsSpace(x[|x| - 1])
    requires NoOpenBefore(x, 'p')
    requires Plain(p)
    ensures TakeProducer(x + " (prod. " + p + ")") == (Some(p), x)
  {
    var note := ProducerWord + p + ")";
    var s := (x + " ") + note;
    assert x + " (prod. " + p + ")" == s;
    var m := Match(|x| + 1, |x| + 1 + |ProducerWord|, |x| + 1 + |ProducerWord| + |p|, |s|);
    ProducerNoteAtEnd(x, p);
    PlainIsStripped(p);
    ProducerNoteRemoved(x, p);
    TakeProducerOfMatch(s, m, p, x);
  }

  /** `s` holds no `c`. */
  predicate Lacks(s: string, c: char) {
    forall j :: 0 <= j < |s| ==> s[j] != c
  }

  /** A single-character delimited group `open body close`, with no `open`
      earlier, is what the search finds, whatever follows it. */
  lemma GroupWithin(pre: string, body: string, post: string, p: Pattern, open: char, close: char)
    requires p.lead == [{open}] && p.run == AllBut(close) && p.close == Some(close)
    requires Lacks(pre, open) && Lacks(body, close) && |body| >= p.minRun
    ensures var s := pre + [open] + body + [close] + post;
      Search(s, p) == Some(Match(|pre|, |pre| + 1, |pre| + 1 + |body|, |pre| + 2 + |body|))
  {
    var s := pre + [open] + body + [close] + post;
    var i := |pre|;
    forall t | i + 1 <= t < i + 1 + |body| ensures InClass(s[t], AllBut(close)) {
      assert s[t] == body[t - i - 1];
    }
    assert s[i + 1 + |body|] == close;
    RunLengthExact(s, i + 1, AllBut(close), |body|);
    assert LeadAt(s, i, p.lead);
    forall j | 0 <= j < i ensures !LeadAt(s, j, p.lead) {
      LeadAtHead(s, j, p.lead);
      assert s[j] == pre[j];
    }
    SearchFindsFirst(s, p, i);
  }

  /** The same group at the very end. */
  lemma GroupAtEnd(pre: string, body: string, p: Pattern, open: char, close: char)
    requires p.lead == [{open}] && p.run == AllBut(close) && p.close == Some(close)
    requires Lacks(pre, open) && Lacks(body, close) && |body| >= p.minRun
    ensures var s := pre + [open] + body + [close];
      Search(s, p) == Some(Match(|pre|, |pre| + 1, |pre| + 1 + |body|, |s|))
  {
    var s := pre + [open] + body + [close];
    GroupWithin(pre, body, [], p, open, close);
    assert s + [] == s;
  }

  lemma TakeFeatureOfMatch(s: string, m: Match, feat: string, rest: string)
    requires Search(s, FeatureNote) == Some(m) && m.end == |s|
    requires m.start + 1 <= m.runEnd <= |s|
    requires " (" + TitleCase(s[m.start + 1..m.runEnd]) + ")" == feat
    requires Strip(s[..m.start]) == rest
    ensures TakeFeature(s) == (feat, rest)
  {
    SubAllOfLastMatch(s, FeatureNote, m);
  }

  lemma FeatureNoteAtEnd(y: string, f: string)
    requires Lacks(y, '(') && Plain(f)
    ensures var s := (y + " ") + (FeatureWord + (" " + f) + ")");
      Search(s, FeatureNote) == Some(Match(|y| + 1, |y| + 7, |y| + 8 + |f|, |s|))
  {
    var pre := y + " ";
    var body := " " + f;
    assert NoOpenBefore(pre, 'f');
    assert Lacks(body, ')');
    NoteAtEnd(pre, FeatureWord, body);
    assert pre + FeatureWord + body + ")" == (y + " ") + (FeatureWord + (" " + f) + ")");
  }

  lemma FeatureNoteSlices(y: string, f: string)
    ensures var s := (y + " ") + (FeatureWord + (" " + f) + ")");
      && s[|y| + 2..|y| + 8 + |f|] == "feat. " + f
      && s[..|y| + 1] == y + " "
  {
    var s := (y + " ") + (FeatureWord + (" " + f) + ")");
    assert s[|y| + 2..|y| + 8 + |f|] == "feat." + (" " + f);
  }

  /** A trimmed word followed by one space strips back to itself. */
  lemma StripSpaced(y: string)
    requires |y| > 0 && !IsSpace(y[0]) && !IsSpace(y[|y| - 1])
    ensures Strip(y + " ") == y
  {
    StripTrailingSpace(y);
    StripByNoop(y, Whitespace);
  }

  lemma FeatureTitle(f: string)
    ensures " (" + TitleCase("feat. " + f) + ")" == " (Feat. " + TitleCase(f) + ")"
  {
    var w := "feat. ";
    TitleCaseAppend(w, f);
    assert TitleCase(w) == "Feat. ";
  }

  /** A trailing `(feat. F)` note becomes the ` (Feat. F)` suffix. */
  lemma TakeFeatureAtEnd(y: string, f: string)
    requires |y| > 0 && !IsSpace(y[0]) && !IsSpace(y[|y| - 1])
    requires Lacks(y, '(') && Plain(f)
    ensures TakeFeature(y + " (feat. " + f + ")") == (" (Feat. " + TitleCase(f) + ")", y)
  {
    var s := (y + " ") + (FeatureWord + (" " + f) + ")");
    assert y + " (feat. " + f + ")" == s;
    var m := Match(|y| + 1, |y| + 7, |y| + 8 + |f|, |s|);
    FeatureNoteAtEnd(y, f);
    FeatureNoteSlices(y, f);
    FeatureTitle(f);
    StripSpaced(y);
    TakeFeatureOfMatch(s, m, " (Feat. " + TitleCase(f) + ")", y);
  }

  /** The first ` - ` splits artist from title. */
  lemma SplitArtistAt(a: string, t: string)
    requires Lacks(a, '-')
    ensures SplitArtist(a + " - " + t) == (Some(Strip(a)), Strip(t))
  {
    var s := a + " - " + t;
    assert s[|a|..|a| + 3] == " - ";
    assert " - "[1] == '-' && s[|a|] == ' ';
    forall j | 0 <= j < |a| ensures !OccursAt(s, " - ", j) {
      OccursAtChars(s, " - ", j);
      if j + 1 < |a| {
        assert s[j + 1] == a[j + 1];
      }
    }
    IndexOfFindsFirst(s, " - ", |a|);
    assert s[..|a|] == a;
    assert s[|a| + 3..] == t;
  }

  lemma NoSeparator(s: string)
    requires Lacks(s, '-')
    ensures SplitArtist(s) == (None, s)
  {
    assert " - "[1] == '-';
    forall j: nat ensures !OccursAt(s, " - ", j) {
      OccursAtChars(s, " - ", j);
      if j + 1 < |s| {
        assert s[j + 1] != '-';
      }
    }
  }

  /** Without a dot there is neither a producer nor a featuring note. */
  lemma NoDotNoNotes(s: string)
    requires Lacks(s, '.')
    ensures TakeProducer(s) == (None, s)
    ensures TakeFeature(s) == ("", s)
  {
    assert ProducerWord[5] == '.' && FeatureWord[5] == '.';
    forall j: nat ensures !LeadAt(s, j, ProducerNote.lead) && !LeadAt(s, j, FeatureNote.lead) {
      LitNoCaseChars(s, ProducerWord, j);
      LitNoCaseChars(s, FeatureWord, j);
      if j + 5 < |s| {
        ToLowerOfNonLetter(s[j + 5], '.');
      }
    }
    SearchNeedsLead(s, ProducerNote);
    SearchNeedsLead(s, FeatureNote);
  }

  lemma NoDotNoMarker(s: string)
    requires Lacks(s, '.')
    ensures Search(s, FeatureMarker) == None
  {
    assert "feat."[4] == '.';
    forall j: nat ensures !LeadAt(s, j, FeatureMarker.lead) {
      LitNoCaseChars(s, "feat.", j);
      if j + 4 < |s| {
        ToLowerOfNonLetter(s[j + 4], '.');
      }
    }
    SearchNeedsLead(s, FeatureMarker);
  }

  /** A plain alternate title passes `AltText` unchanged. */
  lemma AltTextPlain(x: string)
    requires Plain(x)
    ensures AltText(x) == x
  {
    ReplaceHeadMissing(x, ",", " / ");
    NoDoubleSpaceNoPair(x);
    ReplaceAbsent(x, "  ", " ");
    PlainIsStripped(x);
  }

  /** A title without parentheses is left alone by the alternate-title rules. */
  lemma ResolveAlternateNoParens(name: string, t: string)
    requires Lacks(t, '(') && Strip(t) != Placeholder
    ensures ResolveAlternate(name, t) == t
  {
    SearchLeadMissing(t, Parenthesized);
  }

  lemma ToLowerOfNonLetter(c: char, d: char)
    requires !IsAsciiLetter(d)
    ensures ToLower(c) == d <==> c == d
  {
  }

  lemma ParenGroupAtEnd(pre: string, x: string)
    requires Lacks(pre, '(') && Lacks(x, ')') && |x| > 0
    ensures var s := pre + "(" + x + ")";
      && Search(s, Parenthesized) == Some(Match(|pre|, |pre| + 1, |pre| + 1 + |x|, |s|))
      && Group(s, Match(|pre|, |pre| + 1, |pre| + 1 + |x|, |s|)) == x
  {
    GroupAtEnd(pre, x, Parenthesized, '(', ')');
    assert pre + ['('] + x + [')'] == pre + "(" + x + ")";
  }

  lemma RemoveGroupAtEnd(pre: string, x: string)
    requires Lacks(pre, '(')
    ensures Replace(pre + ("(" + x + ")"), "(" + x + ")", "") == pre
  {
    var note := "(" + x + ")";
    var s := pre + note;
    forall j | 0 <= j < |pre| ensures !OccursAt(s, note, j) {
      OccursAtHead(s, note, j);
      assert s[j] == pre[j];
    }
    ReplaceSkip(pre, note, note, "");
    ReplaceAtHead(note, [], "");
    assert note + [] == note;
    assert pre + [] == pre;
  }

  lemma TrailingGroupRemoved(mainPart: string, x: string)
    requires Lacks(mainPart, '(')
    ensures var t := (mainPart + " ") + "(" + x + ")";
      Strip(Replace(t, t[|mainPart| + 1..|t|], "")) == Strip(mainPart)
  {
    var pre := mainPart + " ";
    var t := pre + "(" + x + ")";
    assert t == pre + ("(" + x + ")");
    assert t[|mainPart| + 1..|t|] == "(" + x + ")";
    RemoveGroupAtEnd(pre, x);
    StripTrailingSpace(mainPart);
  }

  /** A title ending in a closing bracket is not the placeholder. */
  lemma ClosedIsReal(t: string)
    requires |t| > 0 && (t[|t| - 1] == ')' || t[|t| - 1] == ']')
    ensures Strip(t) != Placeholder
  {
    StripByKeepsLast(t, Whitespace);
  }

  lemma TrailingGroupMerged(mainPart: string, x: string)
    requires Lacks(mainPart, '(') && Plain(x) && Lacks(x, '.')
    ensures MergeAlternate((mainPart + " ") + "(" + x + ")") == ChooseTitle(Strip(mainPart), x)
  {
    var t := (mainPart + " ") + "(" + x + ")";
    var m := TrailingGroupFound(mainPart, x);
    NoDotNoMarker(x);
    AltTextPlain(x);
    MergeAlternateOfMatch(t, m, x, Strip(mainPart));
  }

  lemma TrailingGroupFound(mainPart: string, x: string) returns (m: Match)
    requires Lacks(mainPart, '(') && Plain(x)
    ensures var t := (mainPart + " ") + "(" + x + ")";
      && Search(t, Parenthesized) == Some(m)
      && m.runStart <= m.runEnd <= |t| && m.start <= m.end <= |t|
      && Group(t, m) == x
      && Strip(Replace(t, t[m.start..m.end], "")) == Strip(mainPart)
  {
    var pre := mainPart + " ";
    var t := pre + "(" + x + ")";
    m := Match(|pre|, |pre| + 1, |pre| + 1 + |x|, |t|);
    LacksSpaced(mainPart, '(');
    PlainLacks(x, ')');
    ParenGroupAtEnd(pre, x);
    TrailingGroupRemoved(mainPart, x);
  }

  /** A title ending in a parenthesised alternate combines the two. */
  lemma ResolveAlternateTrailingGroup(name: string, mainPart: string, x: string)
    requires Lacks(mainPart, '(') && Plain(x) && Lacks(x, '.')
    ensures ResolveAlternate(name, mainPart + " (" + x + ")") == ChooseTitle(Strip(mainPart), x)
  {
    var t := (mainPart + " ") + "(" + x + ")";
    assert mainPart + " (" + x + ")" == t;
    ClosedIsReal(t);
    TrailingGroupMerged(mainPart, x);
  }

  /** `MergeAlternate` once the title's first group is known. */
  lemma MergeAlternateOfMatch(title: string, m: Match, x: string, mainTitle: string)
    requires Search(title, Parenthesized) == Some(m)
    requires m.runStart <= m.runEnd <= |title| && m.start <= m.end <= |title|
    requires Group(title, m) == x && Search(x, FeatureMarker) == None
    requires Strip(Replace(title, title[m.start..m.end], "")) == mainTitle
    ensures MergeAlternate(title) == ChooseTitle(mainTitle, AltText(x))
  {
  }

  // ---------------------------------------------------------------------------
  // Finishing

  lemma PlainLacks(s: string, c: char)
    requires Plain(s) && !IsAlnum(c) && c != ' '
    ensures Lacks(s, c)
  {
  }

  lemma LacksSpaced(s: string, c: char)
    requires Lacks(s, c) && c != ' '
    ensures Lacks(s + " ", c)
  {
    forall j | 0 <= j < |s + " "| ensures (s + " ")[j] != c {
      ConcatAt(s, " ", j);
    }
  }

  lemma TitleCasePlain(f: string)
    requires Plain(f)
    ensures Plain(TitleCase(f))
  {
    TitleCaseKeepsSpaces(f);
  }

  /** Text without `[` loses nothing to the bracket removal. */
  lemma NoBrackets(t: string)
    requires Lacks(t, '[')
    ensures SubAll(t, Bracketed) == t
  {
    assert Bracketed.lead[0] == {'['};
    SearchLeadMissing(t, Bracketed);
  }

  /** The feature suffix built from a plain phrase is clean. */
  lemma FeatureSuffixClean(f: string)
    requires Plain(f)
    ensures CleanSuffix(" (Feat. " + TitleCase(f) + ")")
  {
    var g := TitleCase(f);
    TitleCasePlain(f);
    NoDoubleSpaceConcat(" (Feat. ", g);
    NoDoubleSpaceConcat(" (Feat. " + g, ")");
  }

  lemma TailClean(feat: string, snippet: bool, lowQuality: bool)
    requires feat == "" || CleanSuffix(feat)
    ensures var tail := Suffixes(feat, snippet, lowQuality); tail == "" || CleanSuffix(tail)
  {
    var s := if snippet then " (Snippet)" else "";
    var l := if lowQuality then " (LQ)" else "";
    assert s == "" || CleanSuffix(s) by { SuffixesClean(); }
    assert l == "" || CleanSuffix(l) by { SuffixesClean(); }
    var fs := JoinClean(feat, s);
    assert fs == if snippet then feat + " (Snippet)" else feat;
    var r := JoinClean(fs, l);
  }

  lemma JoinClean(a: string, b: string) returns (ab: string)
    requires a == "" || CleanSuffix(a)
    requires b == "" || CleanSuffix(b)
    ensures ab == a + b && (ab == "" || CleanSuffix(ab))
  {
    ab := a + b;
    if a == "" {
      assert ab == b;
    } else if b == "" {
      assert ab == a;
    } else {
      CleanSuffixConcat(a, b);
    }
  }

  /** A plain title is finished by appending the suffixes, nothing more. */
  lemma FinishPlainTitle(t: string, feat: string, availableLength: Option<string>, quality: Option<string>)
    requires Plain(t) && (feat == "" || CleanSuffix(feat))
    ensures FinishTitle(t, feat, availableLength, quality) == t + Suffixes(feat, IsSnippet(availableLength), IsLowQuality(quality))
  {
    PlainLacks(t, '[');
    NoBrackets(t);
    PlainIsStripped(t);
    PlainIsSettled(t);
    FinishBody(t, t, feat, availableLength, quality);
  }

  /** A title whose bracket-free body is plain gets that body and the suffixes. */
  lemma FinishBody(title: string, body: string, feat: string, availableLength: Option<string>, quality: Option<string>)
    requires Strip(SubAll(title, Bracketed)) == body
    requires Settled(body) && (feat == "" || CleanSuffix(feat))
    ensures FinishTitle(title, feat, availableLength, quality) == body + Suffixes(feat, IsSnippet(availableLength), IsLowQuality(quality))
  {
    TailClean(feat, IsSnippet(availableLength), IsLowQuality(quality));
    FinishPlainJoin(body, Suffixes(feat, IsSnippet(availableLength), IsLowQuality(quality)));
  }

  lemma FinishPlainJoin(t: string, tail: string)
    requires Settled(t) && (tail == "" || CleanSuffix(tail))
    ensures CleanSpacing(t + tail) == t + tail
  {
    if tail == "" {
      assert t + tail == t;
    } else {
      NoDoubleSpaceConcat(t, tail);
    }
    CleanSpacingNoop(t + tail);
  }

  // ---------------------------------------------------------------------------
  // Whole names

  /** `A - T`, both plain: the name once its notes are gone. */
  lemma DashedFacts(a: string, t: string)
    requires Plain(a) && Plain(t)
    ensures var y := a + " - " + t;
      && |y| > 0 && !IsSpace(y[0]) && !IsSpace(y[|y| - 1])
      && Lacks(y, '(') && Lacks(a, '-')
  {
    var y := a + " - " + t;
    assert y[0] == a[0] && y[|y| - 1] == t[|t| - 1];
  }

  lemma NoOpenBeforeFeat(y: string, f: string)
    requires Lacks(y, '(') && Plain(f)
    ensures NoOpenBefore(y + " (feat. " + f + ")", 'p')
  {
    var z := "(feat. " + f + ")";
    forall j | 0 < j < |z| ensures z[j] != '(' {
      if j < 7 {
        assert z[j] == "(feat. "[j];
      } else if j < 7 + |f| {
        assert z[j] == f[j - 7];
      }
    }
    var pre := y + " ";
    assert Lacks(pre, '(') by {
      forall j | 0 <= j < |pre| ensures pre[j] != '(' {
        if j < |y| {
          assert pre[j] == y[j];
        }
      }
    }
    assert y + " (feat. " + f + ")" == pre + z;
    forall j | 0 <= j < |pre + z| && (pre + z)[j] == '('
      ensures j + 1 < |pre + z| && ToLower((pre + z)[j + 1]) != 'p'
    {
      OpenInLacks(pre, z, j);
    }
  }

  /** The only `(` of `pre + z` is the head of `z`. */
  lemma OpenInLacks(pre: string, z: string, j: nat)
    requires Lacks(pre, '(') && |z| >= 2 && z[1] == 'f'
    requires forall t :: 0 < t < |z| ==> z[t] != '('
    requires j < |pre + z| && (pre + z)[j] == '('
    ensures j == |pre| && j + 1 < |pre + z| && (pre + z)[j + 1] == 'f'
  {
    ConcatAt(pre, z, j);
  }

  lemma ConcatAt(a: string, b: string, j: nat)
    requires j < |a + b|
    ensures j < |a| ==> (a + b)[j] == a[j]
    ensures j >= |a| ==> (a + b)[j] == b[j - |a|]
  {
  }

  /** The name's first stage: the trailing producer note comes off. */
  lemma StageProducer(a: string, t: string, f: string, p: string)
    requires Plain(a) && Plain(t) && Plain(f) && Plain(p)
    ensures TakeProducer(a + " - " + t + " (feat. " + f + ") (prod. " + p + ")")
      == (Some(p), a + " - " + t + " (feat. " + f + ")")
  {
    var y := a + " - " + t;
    var x := y + " (feat. " + f + ")";
    assert a + " - " + t + " (feat. " + f + ") (prod. " + p + ")" == x + " (prod. " + p + ")";
    DashedFacts(a, t);
    NoOpenBeforeFeat(y, f);
    assert x[0] == y[0] && x[|x| - 1] == ')';
    TakeProducerAtEnd(x, p);
  }

  lemma StageFeature(a: string, t: string, f: string)
    requires Plain(a) && Plain(t) && Plain(f)
    ensures TakeFeature(a + " - " + t + " (feat. " + f + ")") == (" (Feat. " + TitleCase(f) + ")", a + " - " + t)
  {
    DashedFacts(a, t);
    TakeFeatureAtEnd(a + " - " + t, f);
  }

  lemma StageSplit(a: string, t: string)
    requires Plain(a) && Plain(t)
    ensures SplitArtist(a + " - " + t) == (Some(a), t)
  {
    DashedFacts(a, t);
    SplitArtistAt(a, t);
    PlainIsStripped(a);
    PlainIsStripped(t);
  }

  lemma StageAlternate(y: string, t: string)
    requires Plain(t)
    ensures ResolveAlternate(y, t) == t
  {
    PlainIsStripped(t);
    PlainLacks(t, '(');
    assert t[0] != '?';
    ResolveAlternateNoParens(y, t);
  }

  /** `A - T (feat. F) (prod. P)`: the artist, the title with the featuring
      suffix (then any snippet or low-quality mark), and the producer. */
  lemma ArtistFeatureProducer(a: string, t: string, f: string, p: string,
                              availableLength: Option<string>, quality: Option<string>)
    requires Plain(a) && Plain(t) && Plain(f) && Plain(p)
    ensures var name := (a + " - " + t) + (" (feat. " + f + ")") + (" (prod. " + p + ")");
      var feat := " (Feat. " + TitleCase(f) + ")";
      ProcessTitleAndMetadata(name, availableLength, quality)
        == Metadata(t + Suffixes(feat, IsSnippet(availableLength), IsLowQuality(quality)), Some(a), Some(p))
  {
    assert (a + " - " + t) + (" (feat. " + f + ")") + (" (prod. " + p + ")")
      == a + " - " + t + " (feat. " + f + ") (prod. " + p + ")";
    StageProducer(a, t, f, p);
    StageFeature(a, t, f);
    StageSplit(a, t);
    StageAlternate(a + " - " + t, t);
    FeatureSuffixClean(f);
    FinishPlainTitle(t, " (Feat. " + TitleCase(f) + ")", availableLength, quality);
  }

  lemma SuffixesNone(feat: string)
    ensures Suffixes(feat, false, false) == feat
  {
    assert feat + "" == feat;
  }

  /** The manifest row "Drake - Marvins Room (feat. Kendrick Lamar) (prod. Noah)". */
  lemma MarvinsRoom()
    ensures ProcessTitleAndMetadata("Drake - Marvins Room" + " (feat. Kendrick Lamar)" + " (prod. Noah)", None, None)
      == Metadata("Marvins Room" + " (Feat. Kendrick Lamar)", Some("Drake"), Some("Noah"))
  {
    MarvinsRoomWords();
    ArtistFeatureProducer("Drake", "Marvins Room", "Kendrick Lamar", "Noah", None, None);
    MarvinsRoomPieces();
    SuffixesNone(" (Feat. " + TitleCase("Kendrick Lamar") + ")");
  }

  lemma MarvinsRoomWords()
    ensures Plain("Drake") && Plain("Marvins Room") && Plain("Kendrick Lamar") && Plain("Noah")
  {
    PlainDrake();
    PlainMarvinsRoom();
    PlainKendrickLamar();
    PlainNoah();
  }

  lemma PlainDrake() ensures Plain("Drake") {}
  lemma PlainMarvinsRoom() ensures Plain("Marvins Room") {}
  lemma PlainKendrickLamar() ensures Plain("Kendrick Lamar") {}
  lemma PlainNoah() ensures Plain("Noah") {}

  lemma MarvinsRoomPieces()
    ensures "Drake" + " - " + "Marvins Room" == "Drake - Marvins Room"
    ensures " (feat. " + "Kendrick Lamar" + ")" == " (feat. Kendrick Lamar)"
    ensures " (prod. " + "Noah" + ")" == " (prod. Noah)"
    ensures " (Feat. " + TitleCase("Kendrick Lamar") + ")" == " (Feat. Kendrick Lamar)"
  {
    DrakeSong();
    KendrickFeature();
    NoahProducer();
    KendrickLamarTitle();
    KendrickSuffix();
  }

  lemma DrakeSong() ensures "Drake" + " - " + "Marvins Room" == "Drake - Marvins Room" {}
  lemma KendrickFeature() ensures " (feat. " + "Kendrick Lamar" + ")" == " (feat. Kendrick Lamar)" {}
  lemma NoahProducer() ensures " (prod. " + "Noah" + ")" == " (prod. Noah)" {}
  lemma KendrickSuffix() ensures " (Feat. " + "Kendrick Lamar" + ")" == " (Feat. Kendrick Lamar)" {}

  lemma KendrickLamarTitle()
    ensures TitleCase("Kendrick Lamar") == "Kendrick Lamar"
  {
    assert "Kendrick " + "Lamar" == "Kendrick Lamar";
    TitleCaseAppend("Kendrick ", "Lamar");
    assert TitleCase("Kendrick ") == "Kendrick ";
    assert TitleCase("Lamar") == "Lamar";
  }

  lemma LacksConcat(a: string, b: string, c: char)
    requires Lacks(a, c) && Lacks(b, c)
    ensures Lacks(a + b, c)
  {
    forall j | 0 <= j < |a + b| ensures (a + b)[j] != c {
      ConcatAt(a, b, j);
    }
  }

  /** A plain phrase between delimiters lacks whatever the delimiters lack. */
  lemma WrapLacks(pre: string, x: string, post: string, c: char)
    requires Lacks(pre, c) && Lacks(post, c) && Plain(x) && !IsAlnum(c) && c != ' '
    ensures Lacks(pre + x + post, c)
  {
    PlainLacks(x, c);
    LacksConcat(pre, x, c);
    LacksConcat(pre + x, post, c);
  }

  /** The group text of a match found by `GroupWithin`. */
  lemma GroupWithinText(pre: string, body: string, post: string, open: char, close: char)
    ensures var s := pre + [open] + body + [close] + post;
      Group(s, Match(|pre|, |pre| + 1, |pre| + 1 + |body|, |pre| + 2 + |body|)) == body
  {
    var s := pre + [open] + body + [close] + post;
    assert s[|pre| + 1..|pre| + 1 + |body|] == body;
  }

  lemma PlaceholderIsReal()
    ensures Strip(Placeholder) == Placeholder
  {
    StripByNoop(Placeholder, Whitespace);
  }

  lemma PlainIsNotPlaceholder(x: string)
    requires Plain(x)
    ensures Strip(x) == x && x != Placeholder
  {
    PlainIsStripped(x);
    AlnumHeadIsNotPlaceholder(x);
  }

  lemma AlnumHeadIsNotPlaceholder(x: string)
    requires |x| > 0 && IsAlnum(x[0])
    ensures x != Placeholder
  {
    assert x[0] != Placeholder[0];
  }

  // ---------------------------------------------------------------------------
  // Alternate titles

  lemma NoNotesNoArtist(name: string)
    requires Lacks(name, '.') && Lacks(name, '-')
    ensures TakeProducer(name) == (None, name)
    ensures TakeFeature(name) == ("", name)
    ensures SplitArtist(name) == (None, name)
  {
    NoDotNoNotes(name);
    NoSeparator(name);
  }

  /** `M (X)`: the main title and the alternate are joined with ` / `. */
  lemma MainAndAlternate(main: string, x: string, availableLength: Option<string>, quality: Option<string>)
    requires Plain(main) && Plain(x)
    ensures ProcessTitleAndMetadata(main + " (" + x + ")", availableLength, quality)
      == Metadata(main + " / " + x + Suffixes("", IsSnippet(availableLength), IsLowQuality(quality)), None, None)
  {
    var name := main + " (" + x + ")";
    MainAlternateNotes(main, x);
    MainAlternateMerge(main, x);
    JoinedFinish(main, x, availableLength, quality);
  }

  lemma MainAlternateNotes(main: string, x: string)
    requires Plain(main) && Plain(x)
    ensures var name := main + " (" + x + ")";
      TakeProducer(name) == (None, name) && TakeFeature(name) == ("", name) && SplitArtist(name) == (None, name)
  {
    WrapLacks(main + " (", x, ")", '.');
    WrapLacks(main + " (", x, ")", '-');
    NoNotesNoArtist(main + " (" + x + ")");
  }

  lemma MainAlternateMerge(main: string, x: string)
    requires Plain(main) && Plain(x)
    ensures var name := main + " (" + x + ")"; ResolveAlternate(name, name) == main + " / " + x
  {
    PlainLacks(main, '(');
    PlainLacks(x, '.');
    ResolveAlternateTrailingGroup(main + " (" + x + ")", main, x);
    PlainIsNotPlaceholder(main);
    PlainIsNotPlaceholder(x);
  }

  lemma JoinedFinish(a: string, b: string, availableLength: Option<string>, quality: Option<string>)
    requires Plain(a) && Plain(b)
    ensures FinishTitle(a + " / " + b, "", availableLength, quality)
      == a + " / " + b + Suffixes("", IsSnippet(availableLength), IsLowQuality(quality))
  {
    var s := a + " / " + b;
    WrapLacks(a + " / ", b, "", '[');
    assert a + " / " + b + "" == s;
    PlainLacks(a, '[');
    NoBrackets(s);
    JoinedSettled(a, b);
    StripByNoop(s, Whitespace);
    FinishBody(s, s, "", availableLength, quality);
  }

  lemma JoinedSettled(a: string, b: string)
    requires Plain(a) && Plain(b)
    ensures Settled(a + " / " + b)
  {
    var s := a + " / " + b;
    assert s[0] == a[0] && s[|s| - 1] == b[|b| - 1];
    NoDoubleSpaceConcat(a, " / ");
    NoDoubleSpaceConcat(a + " / ", b);
    forall i | 0 <= i < |s| ensures !InClass(s[i], OneOf({'\n', '\r'})) {
      ConcatAt(a + " / ", b, i);
      if i < |a| + 3 {
        ConcatAt(a, " / ", i);
      }
    }
  }

  /** `??? (X)`: a placeholder main title gives way to the alternate. */
  lemma PlaceholderWithAlternate(x: string, availableLength: Option<string>, quality: Option<string>)
    requires Plain(x)
    ensures ProcessTitleAndMetadata("??? (" + x + ")", availableLength, quality)
      == Metadata(x + Suffixes("", IsSnippet(availableLength), IsLowQuality(quality)), None, None)
  {
    var name := "??? (" + x + ")";
    WrapLacks("??? (", x, ")", '.');
    WrapLacks("??? (", x, ")", '-');
    NoNotesNoArtist(name);
    PlaceholderGivesWay(x);
    FinishPlainTitle(x, "", availableLength, quality);
  }

  lemma PlaceholderGivesWay(x: string)
    requires Plain(x)
    ensures ResolveAlternate("??? (" + x + ")", "??? (" + x + ")") == x
  {
    PlaceholderSpaced(x);
    PlainLacks(x, '.');
    ResolveAlternateTrailingGroup("??? (" + x + ")", Placeholder, x);
    PlaceholderIsReal();
    PlainIsNotPlaceholder(x);
  }

  lemma PlaceholderSpaced(x: string)
    ensures "??? (" + x + ")" == Placeholder + " (" + x + ")"
    ensures Lacks(Placeholder, '(')
  {
    assert "??? (" == Placeholder + " (";
  }

  /** `A (X) - ???`: an unknown title after the dash takes the first
      parenthesised group of the whole name; the artist keeps it. */
  lemma PlaceholderTitle(a: string, x: string, availableLength: Option<string>, quality: Option<string>)
    requires Plain(a) && Plain(x)
    ensures ProcessTitleAndMetadata(a + " (" + x + ")" + " - ???", availableLength, quality)
      == Metadata(x + Suffixes("", IsSnippet(availableLength), IsLowQuality(quality)), Some(a + " (" + x + ")"), None)
  {
    var name := a + " (" + x + ")" + " - ???";
    FrontLacks(a, x);
    LacksConcat(a + " (" + x + ")", " - ???", '.');
    NoDotNoNotes(name);
    PlaceholderSplit(a, x);
    PlaceholderTakesGroup(a, x);
    FinishPlainTitle(x, "", availableLength, quality);
  }

  lemma PlaceholderSplit(a: string, x: string)
    requires Plain(a) && Plain(x)
    ensures SplitArtist(a + " (" + x + ")" + " - ???") == (Some(a + " (" + x + ")"), Placeholder)
  {
    FrontLacks(a, x);
    FrontIsStripped(a, x);
    DashPlaceholder(a + " (" + x + ")");
    SplitArtistAt(a + " (" + x + ")", Placeholder);
    PlaceholderIsReal();
  }

  lemma DashPlaceholder(front: string)
    ensures front + " - ???" == front + " - " + Placeholder
  {
    assert " - ???" == " - " + Placeholder;
    assert front + (" - " + Placeholder) == front + " - " + Placeholder;
  }

  lemma PlaceholderTakesGroup(a: string, x: string)
    requires Plain(a) && Plain(x)
    ensures ResolveAlternate(a + " (" + x + ")" + " - ???", Placeholder) == x
  {
    PlaceholderIsReal();
    PlaceholderGroup(a, x);
    AltTextPlain(x);
  }

  lemma FrontLacks(a: string, x: string)
    requires Plain(a) && Plain(x)
    ensures Lacks(a + " (" + x + ")", '.') && Lacks(a + " (" + x + ")", '-')
  {
    PlainLacks(a, '.');
    PlainLacks(a, '-');
    LacksConcat(a, " (", '.');
    LacksConcat(a, " (", '-');
    WrapLacks(a + " (", x, ")", '.');
    WrapLacks(a + " (", x, ")", '-');
  }

  lemma FrontIsStripped(a: string, x: string)
    requires Plain(a)
    ensures Strip(a + " (" + x + ")") == a + " (" + x + ")"
  {
    var front := a + " (" + x + ")";
    assert front[0] == a[0] && front[|front| - 1] == ')';
    StripByNoop(front, Whitespace);
  }

  lemma PlaceholderGroup(a: string, x: string)
    requires Plain(a) && Plain(x)
    ensures PlaceholderAlternate(a + " (" + x + ")" + " - ???") == AltText(x)
  {
    var pre := a + " ";
    var post := " - ???";
    var s := pre + ['('] + x + [')'] + post;
    assert s == a + " (" + x + ")" + " - ???";
    PlainLacks(a, '(');
    LacksSpaced(a, '(');
    PlainLacks(x, ')');
    GroupWithin(pre, x, post, Parenthesized, '(', ')');
    GroupWithinText(pre, x, post, '(', ')');
  }

  // ---------------------------------------------------------------------------
  // Bracketed notes

  /** `S [U]`: the bracketed note is dropped from the title. */
  lemma BracketedNote(s: string, u: string, availableLength: Option<string>, quality: Option<string>)
    requires Plain(s) && Plain(u)
    ensures ProcessTitleAndMetadata(s + " [" + u + "]", availableLength, quality)
      == Metadata(s + Suffixes("", IsSnippet(availableLength), IsLowQuality(quality)), None, None)
  {
    var name := s + " [" + u + "]";
    PlainLacks(s, '.');
    PlainLacks(s, '-');
    PlainLacks(s, '(');
    LacksConcat(s, " [", '.');
    LacksConcat(s, " [", '-');
    LacksConcat(s, " [", '(');
    WrapLacks(s + " [", u, "]", '.');
    WrapLacks(s + " [", u, "]", '-');
    WrapLacks(s + " [", u, "]", '(');
    NoNotesNoArtist(name);
    ClosedIsReal(name);
    ResolveAlternateNoParens(name, name);
    BracketRemoved(s, u);
    PlainIsSettled(s);
    FinishBody(name, s, "", availableLength, quality);
  }

  lemma BracketRemoved(s: string, u: string)
    requires Plain(s) && Plain(u)
    ensures Strip(SubAll(s + " [" + u + "]", Bracketed)) == s
  {
    var t := s + " [" + u + "]";
    assert SubAll(t, Bracketed) == s + " " by {
      BracketLacks(s, u);
      BracketForm(s, u);
      BracketPrefix(s + " ", u);
    }
    StripSpaced(s);
  }

  lemma BracketLacks(s: string, u: string)
    requires Plain(s) && Plain(u)
    ensures Lacks(s + " ", '[') && Lacks(u, ']')
  {
    PlainLacks(s, '[');
    LacksSpaced(s, '[');
    PlainLacks(u, ']');
  }

  lemma BracketForm(s: string, u: string)
    ensures (s + " ") + ['['] + u + [']'] == s + " [" + u + "]"
  {
  }

  /** A trailing bracketed note is all that the bracket removal takes. */
  lemma BracketPrefix(pre: string, u: string)
    requires Lacks(pre, '[') && Lacks(u, ']')
    ensures SubAll(pre + ['['] + u + [']'], Bracketed) == pre
  {
    var t := pre + ['['] + u + [']'];
    GroupAtEnd(pre, u, Bracketed, '[', ']');
    SubAllOfLastMatch(t, Bracketed, Match(|pre|, |pre| + 1, |pre| + 1 + |u|, |t|));
    assert t[..|pre|] == pre;
  }

  // ---------------------------------------------------------------------------
  // Manifest rows

  lemma SnippetCell()
    ensures IsSnippet(Some("Snippet"))
  {
    SnippetStripped();
    SnippetLower();
  }

  lemma SnippetStripped() ensures Strip("Snippet") == "Snippet" { StripByNoop("Snippet", Whitespace); }
  lemma SnippetLower() ensures Lower("Snippet") == "snippet" {
    assert Lower("Snippet")[0] == 's';
  }

  lemma LowQualityCell()
    ensures IsLowQuality(Some("Low Quality"))
  {
    LowQualityStripped();
    LowQualityLower();
  }

  lemma LowQualityStripped() ensures Strip("Low Quality") == "Low Quality" { StripByNoop("Low Quality", Whitespace); }
  lemma LowQualityLower() ensures Lower("Low Quality") == "low quality" {
    assert Lower("Low Quality")[0] == 'l' && Lower("Low Quality")[4] == 'q';
  }

  /** "??? (Alternate Name)", a snippet. */
  lemma AlternateNameSnippet()
    ensures ProcessTitleAndMetadata("??? (" + "Alternate Name" + ")", Some("Snippet"), None)
      == Metadata("Alternate Name" + " (Snippet)", None, None)
  {
    PlainAlternateName();
    PlaceholderWithAlternate("Alternate Name", Some("Snippet"), None);
    SnippetCell();
    SnippetSuffix();
  }

  lemma SnippetSuffix() ensures Suffixes("", true, false) == " (Snippet)" {
    assert "" + " (Snippet)" + "" == " (Snippet)";
  }

  lemma PlainAlternateName() ensures Plain("Alternate Name") {}

  /** "Song [Unreleased]", low quality. */
  lemma UnreleasedLowQuality()
    ensures ProcessTitleAndMetadata("Song" + " [" + "Unreleased" + "]", None, Some("Low Quality"))
      == Metadata("Song" + " (LQ)", None, None)
  {
    PlainSong();
    PlainUnreleased();
    BracketedNote("Song", "Unreleased", None, Some("Low Quality"));
    LowQualityCell();
    LowQualitySuffix();
  }

  lemma LowQualitySuffix() ensures Suffixes("", false, true) == " (LQ)" {
    assert "" + " (LQ)" == " (LQ)";
  }

  lemma PlainSong() ensures Plain("Song") {}
  lemma PlainUnreleased() ensures Plain("Unreleased") {}

  /** "Never Stop (Alt Take)". */
  lemma NeverStopAltTake()
    ensures ProcessTitleAndMetadata("Never Stop" + " (" + "Alt Take" + ")", None, None)
      == Metadata("Never Stop" + " / " + "Alt Take", None, None)
  {
    PlainNeverStop();
    PlainAltTake();
    MainAndAlternate("Never Stop", "Alt Take", None, None);
    SuffixesNone("");
    assert "Never Stop" + " / " + "Alt Take" + "" == "Never Stop" + " / " + "Alt Take";
  }

  lemma PlainNeverStop() ensures Plain("Never Stop") {}
  lemma PlainAltTake() ensures Plain("Alt Take") {}
}
