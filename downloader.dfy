/** The single-track downloader: file and folder names, the pillowcase.su and
    music.froste.lol link formats, the choice of file extension and path, and
    the clean-up of a manifest's song name into title, artist and composer. */
module Downloader {
  import opened Text

  // ---------------------------------------------------------------------------
  // File and folder names

  /** The characters Windows refuses in a path component: `\ / : * ? " < > |`. */
  const Reserved: CharClass := OneOf({'\\', '/', ':', '*', '?', '"', '<', '>', '|'})

  /** What `sanitize_filename` trims from both ends. */
  const NameEdge: CharClass := OneOf({' ', '.'})

  const MaxFilenameLength: nat := 200

  /** `sanitize_folder_name`: reserved characters become `_`, then whitespace
      is trimmed. */
  function SanitizeFolderName(name: string): (r: string)
    ensures NoneIn(r, Reserved)
    ensures |r| > 0 ==> !IsSpace(r[0]) && !IsSpace(r[|r| - 1])
    ensures |r| <= |name|
  {
    var replaced := ReplaceClass(name, Reserved, '_');
    StripByKeepsNoneIn(replaced, Whitespace, Reserved);
    Strip(replaced)
  }

  /** Sanitizing a folder name twice changes nothing more. */
  lemma SanitizeFolderNameIdempotent(name: string)
    ensures SanitizeFolderName(SanitizeFolderName(name)) == SanitizeFolderName(name)
  {
    var r := SanitizeFolderName(name);
    ReplaceClassNoop(r, Reserved, '_');
    StripByNoop(r, Whitespace);
  }

  /** The filename before truncation: reserved characters become `_`, then
      spaces and dots are trimmed from both ends. */
  function TrimmedFilename(filename: string): (t: string)
    ensures NoneIn(t, Reserved)
    ensures |t| > 0 ==> !InClass(t[0], NameEdge) && !InClass(t[|t| - 1], NameEdge)
  {
    var replaced := ReplaceClass(filename, Reserved, '_');
    StripByKeepsNoneIn(replaced, NameEdge, Reserved);
    StripBy(replaced, NameEdge)
  }

  /** `sanitize_filename`: the trimmed name, cut to its first 200 characters. */
  function SanitizeFilename(filename: string): (r: string)
    ensures |r| <= MaxFilenameLength
    ensures NoneIn(r, Reserved)
    ensures |r| > 0 ==> r[0] != ' ' && r[0] != '.'
    ensures |r| <= |TrimmedFilename(filename)| && r == TrimmedFilename(filename)[..|r|]
    ensures |TrimmedFilename(filename)| <= MaxFilenameLength ==> r == TrimmedFilename(filename)
    ensures |TrimmedFilename(filename)| > MaxFilenameLength ==> |r| == MaxFilenameLength
  {
    var t := TrimmedFilename(filename);
    if |t| > MaxFilenameLength then t[..MaxFilenameLength] else t
  }

  /** The truncation can leave a space or a dot at the end, so sanitizing is
      idempotent exactly when it did not. */
  lemma SanitizeFilenameIdempotentIff(filename: string)
    ensures var r := SanitizeFilename(filename);
      SanitizeFilename(r) == r <==> |r| == 0 || !InClass(r[|r| - 1], NameEdge)
  {
    var r := SanitizeFilename(filename);
    ReplaceClassNoop(r, Reserved, '_');
    if |r| == 0 || !InClass(r[|r| - 1], NameEdge) {
      StripByNoop(r, NameEdge);
    }
  }

  /** A 201-character name whose 200th character is a space sanitizes to a
      name that a second pass shortens. */
  lemma SanitizeFilenameNotIdempotent()
    ensures var r := SanitizeFilename(seq(199, _ => 'a') + " b");
      |r| == 200 && SanitizeFilename(r) != r
  {
    var f := seq(199, _ => 'a') + " b";
    ReplaceClassNoop(f, Reserved, '_');
    StripByNoop(f, NameEdge);
    var r := SanitizeFilename(f);
    assert r[199] == ' ';
    SanitizeFilenameIdempotentIff(f);
  }

  // ---------------------------------------------------------------------------
  // Links

  const PillowcaseDomain := "pillowcase.su"
  const PillowcaseFilePath := "pillowcase.su/f/"
  const FrosteSongPath := "music.froste.lol/song/"
  const PillowcaseApi := "https://api.pillowcase.su/api/download/"
  const FrosteSite := "https://" + FrosteSongPath

  /** `extract_id`: the id after the first `pillowcase.su/f/` that has one. */
  function ExtractId(url: string): (r: Option<string>)
    ensures r.None? <==> forall i :: !RunFollows(url, PillowcaseFilePath, Alnum, i)
    ensures r.Some? ==> exists i: nat ::
      && RunFollows(url, PillowcaseFilePath, Alnum, i)
      && (forall j :: 0 <= j < i ==> !RunFollows(url, PillowcaseFilePath, Alnum, j))
      && IsRunAt(url, i + |PillowcaseFilePath|, r.value, Alnum)
  {
    RunAfter(url, PillowcaseFilePath, Alnum)
  }

  /** The song id of a music.froste.lol link. */
  function SongId(url: string): (r: Option<string>)
    ensures r.None? <==> forall i :: !RunFollows(url, FrosteSongPath, Alnum, i)
    ensures r.Some? ==> exists i: nat ::
      && RunFollows(url, FrosteSongPath, Alnum, i)
      && (forall j :: 0 <= j < i ==> !RunFollows(url, FrosteSongPath, Alnum, j))
      && IsRunAt(url, i + |FrosteSongPath|, r.value, Alnum)
  {
    RunAfter(url, FrosteSongPath, Alnum)
  }

  datatype Host = Pillowcase | Froste

  /** Where a track is fetched from and the id it is known by. */
  datatype Endpoint = Endpoint(host: Host, apiUrl: string, fileId: string)

  datatype DispatchError = NoFileId | NoSongId | UnsupportedHost

  /** The download address each host serves a track id at. */
  function ApiUrl(host: Host, id: string): string {
    match host
    case Pillowcase => PillowcaseApi + id + ".mp3"
    case Froste => FrosteSite + id + "/download"
  }

  /** The host dispatch at the top of `download_file`. */
  function ResolveHost(url: string): (r: Result<Endpoint, DispatchError>)
    ensures r.Ok? ==> && r.value.apiUrl == ApiUrl(r.value.host, r.value.fileId)
                      && |r.value.fileId| > 0 && AllIn(r.value.fileId, Alnum)
    ensures Contains(url, PillowcaseDomain) ==>
      && (r.Ok? ==> r.value.host == Pillowcase && ExtractId(url) == Some(r.value.fileId))
      && (r.Err? ==> r.error == NoFileId && ExtractId(url).None?)
    ensures !Contains(url, PillowcaseDomain) && Contains(url, FrosteSongPath) ==>
      && (r.Ok? ==> r.value.host == Froste && SongId(url) == Some(r.value.fileId))
      && (r.Err? ==> r.error == NoSongId && SongId(url).None?)
    ensures r == Err(UnsupportedHost) <==> !Contains(url, PillowcaseDomain) && !Contains(url, FrosteSongPath)
  {
    if Contains(url, PillowcaseDomain) then
      match ExtractId(url)
      case None => Err(NoFileId)
      case Some(id) =>
        Ok(Endpoint(Pillowcase, ApiUrl(Pillowcase, id), id))
    else if Contains(url, FrosteSongPath) then
      match SongId(url)
      case None => Err(NoSongId)
      case Some(id) =>
        Ok(Endpoint(Froste, ApiUrl(Froste, id), id))
    else
      Err(UnsupportedHost)
  }

  /** The layout of a froste download address: `https://`, the song path,
      the id, then `/download`. */
  lemma FrosteApiUrlLayout(id: string)
    ensures var s := ApiUrl(Froste, id); var rs := 8 + |FrosteSongPath|;
      && |s| == rs + |id| + 9
      && s[8..rs] == FrosteSongPath
      && s[rs..rs + |id|] == id
      && s[rs + |id|] == '/'
      && forall j :: 0 <= j < 8 ==> s[j] != 'm'
  {
    var s := ApiUrl(Froste, id);
    var head := "https://";
    assert s == head + (FrosteSongPath + id + "/download");
    forall j | 0 <= j < 8 ensures s[j] != 'm' {
      assert s[j] == head[j];
    }
  }

  /** A froste download address names the song it was built from. */
  lemma SongIdOfApiUrl(id: string)
    requires |id| > 0 && AllIn(id, Alnum)
    ensures SongId(ApiUrl(Froste, id)) == Some(id)
  {
    var s := ApiUrl(Froste, id);
    var p := RunPattern(FrosteSongPath, Alnum);
    var rs := 8 + |FrosteSongPath|;
    FrosteApiUrlLayout(id);
    RunLengthExact(s, rs, Alnum, |id|);
    RunPatternIff(s, FrosteSongPath, Alnum, 8);
    forall j | 0 <= j < 8 ensures !LeadAt(s, j, p.lead) {
      LeadAtHead(s, j, p.lead);
    }
    SearchFindsFirst(s, p, 8);
  }

  // ---------------------------------------------------------------------------
  // Download target

  /** What the HTTP request for a track came to: the body was saved and the
      response carried this `Content-Type` (empty when absent), or the
      request, the status check or the write failed. */
  datatype Response = Delivered(contentType: string) | Failed

  /** The saved track: its path and its extension. */
  datatype Download = Download(path: string, ext: string)

  /** The file extension for a `Content-Type` value. */
  function ExtensionFor(contentType: string): (ext: string)
    ensures ext == ".wav" <==> Contains(Lower(contentType), "wav")
    ensures ext == ".m4a" <==>
      !Contains(Lower(contentType), "wav") && (Contains(Lower(contentType), "m4a") || Contains(Lower(contentType), "mp4"))
    ensures ext == ".flac" <==>
      && !Contains(Lower(contentType), "wav") && !Contains(Lower(contentType), "m4a")
      && !Contains(Lower(contentType), "mp4") && Contains(Lower(contentType), "flac")
    ensures ext in {".wav", ".m4a", ".flac", ".mp3"}
  {
    var ct := Lower(contentType);
    if Contains(ct, "wav") then ".wav"
    else if Contains(ct, "m4a") || Contains(ct, "mp4") then ".m4a"
    else if Contains(ct, "flac") then ".flac"
    else ".mp3"
  }

  /** `os.path.join(dir, name)` on POSIX. */
  function PathJoin(dir: string, name: string): string {
    if |name| > 0 && name[0] == '/' then name
    else if |dir| == 0 || dir[|dir| - 1] == '/' then dir + name
    else dir + "/" + name
  }

  /** The file name without extension: the sanitized title, or the track id
      when the title is blank. */
  function FileStem(title: string, id: string): (stem: string)
    ensures Strip(title) != "" ==> stem == SanitizeFilename(title)
    ensures Strip(title) == "" ==> stem == id
    ensures NoneIn(stem, Reserved) || stem == id
  {
    if Strip(title) != "" then SanitizeFilename(title) else id
  }

  /** `download_file`: the path and extension of the saved track, or `None`
      when the link has no usable id, its host is unsupported, or the
      transfer fails. */
  function DownloadFile(url: string, destFolder: string, title: string, response: Response): (r: Option<Download>)
    ensures ResolveHost(url).Err? ==> r.None?
    ensures response.Failed? ==> r.None?
    ensures r.Some? <==> ResolveHost(url).Ok? && response.Delivered?
    ensures r.Some? ==>
      && r.value.ext == ExtensionFor(response.contentType)
      && r.value.path == PathJoin(destFolder, FileStem(title, ResolveHost(url).value.fileId) + r.value.ext)
  {
    match ResolveHost(url)
    case Err(_) => None
    case Ok(endpoint) =>
      match response
      case Failed => None
      case Delivered(contentType) =>
        var ext := ExtensionFor(contentType);
        Some(Download(PathJoin(destFolder, FileStem(title, endpoint.fileId) + ext), ext))
  }

  lemma FileStemHasNoSlash(title: string, id: string)
    requires AllIn(id, Alnum)
    ensures '/' !in FileStem(title, id)
  {
    var stem := FileStem(title, id);
    if Strip(title) != "" {
      assert forall i :: 0 <= i < |stem| ==> !InClass(stem[i], Reserved);
    }
  }

  /** The track lands directly inside the destination folder: its name has no
      `/`, so the join never escapes to an absolute path or a sub-folder. */
  lemma DownloadLandsInFolder(url: string, destFolder: string, title: string, response: Response)
    requires DownloadFile(url, destFolder, title, response).Some?
    ensures var d := DownloadFile(url, destFolder, title, response).value;
      var name := FileStem(title, ResolveHost(url).value.fileId) + d.ext;
        && '/' !in name && |name| > 0
        && EndsWith(name, d.ext)
        && d.path == (if |destFolder| == 0 || destFolder[|destFolder| - 1] == '/' then destFolder + name
                      else destFolder + "/" + name)
  {
    var d := DownloadFile(url, destFolder, title, response).value;
    var endpoint := ResolveHost(url).value;
    FileStemHasNoSlash(title, endpoint.fileId);
    NameInFolder(destFolder, FileStem(title, endpoint.fileId), d.ext);
  }

  lemma NameInFolder(dir: string, stem: string, ext: string)
    requires '/' !in stem && ext in {".wav", ".m4a", ".flac", ".mp3"}
    ensures var name := stem + ext;
      && '/' !in name && |name| > 0
      && EndsWith(name, ext)
      && PathJoin(dir, name) == (if |dir| == 0 || dir[|dir| - 1] == '/' then dir + name else dir + "/" + name)
  {
    var name := stem + ext;
    assert '/' !in ext;
    assert name[|name| - |ext|..] == ext;
    if |stem| == 0 {
      assert name[0] == '.';
    } else {
      assert name[0] == stem[0];
    }
  }

  // ---------------------------------------------------------------------------
  // Song names: `process_title_and_metadata`

  const ProducerWord := "(prod. "
  const FeatureWord := "(feat."

  /** `\(prod\. ([^)]+)\)`, case-insensitive. */
  const ProducerNote := NotePattern(ProducerWord, ')')
  /** `\((feat\.[^)]+)\)`, case-insensitive. */
  const FeatureNote := NotePattern(FeatureWord, ')')
  /** `\(([^)]+)\)`. */
  const Parenthesized := Pattern(Lit("("), AllBut(')'), 1, Some(')'))
  /** `\[[^\]]*\]`. */
  const Bracketed := Pattern(Lit("["), AllBut(']'), 0, Some(']'))
  /** `feat\.`, case-insensitive. */
  const FeatureMarker := Pattern(LitNoCase("feat."), NoChar, 0, None)

  /** The manifest's placeholder for an unknown title. */
  const Placeholder := "???"

  /** What the clean-up yields: the title, and the artist and composer when
      the name carries them. */
  datatype Metadata = Metadata(title: string, artist: Option<string>, composer: Option<string>)

  /** The first `(prod. ...)` note: its stripped producer and the name with
      every copy of the note's text removed, stripped. */
  function TakeProducer(name: string): (r: (Option<string>, string))
    ensures r.0.None? ==> r.1 == name
  {
    match Search(name, ProducerNote)
    case None => (None, name)
    case Some(m) => (Some(Strip(Group(name, m))), Strip(Replace(name, name[m.start..m.end], "")))
  }

  /** The first `(feat. ...)` note in title case as a ` (...)` suffix, and the
      name with every such note removed, stripped. */
  function TakeFeature(name: string): (r: (string, string))
    ensures r.0 == "" ==> r.1 == name
    ensures r.0 != "" ==> |r.0| >= 3 && r.0[..2] == " (" && r.0[|r.0| - 1] == ')'
  {
    match Search(name, FeatureNote)
    case None => ("", name)
    case Some(m) => (" (" + TitleCase(name[m.start + 1..m.runEnd]) + ")", Strip(SubAll(name, FeatureNote)))
  }

  /** `name.split(' - ', 1)`: artist and title, both stripped, when the name
      holds the separator. */
  function SplitArtist(name: string): (r: (Option<string>, string))
    ensures r.0.None? <==> !Contains(name, " - ")
    ensures r.0.None? ==> r.1 == name
  {
    match IndexOf(name, " - ")
    case None => (None, name)
    case Some(k) => (Some(Strip(name[..k])), Strip(name[k + 3..]))
  }

  /** An alternate title as written inside parentheses: commas become ` / `. */
  function AltText(group: string): string {
    Strip(Replace(Replace(group, ",", " / "), "  ", " "))
  }

  /** How a main title and the alternate in its parentheses combine: a real
      name beats the placeholder, two real names are joined with ` / `. */
  function ChooseTitle(main: string, alt: string): (t: string)
    ensures t == main || t == alt || t == main + " / " + alt
    ensures Strip(main) == Placeholder && Strip(alt) != Placeholder ==> t == alt
    ensures Strip(alt) == Placeholder && Strip(main) != Placeholder ==> t == main
    ensures t == main + " / " + alt <==>
      && Strip(main) != "" && Strip(alt) != ""
      && (Strip(main) == Placeholder <==> Strip(alt) == Placeholder)
    ensures t == Placeholder ==> main == Placeholder || alt == Placeholder
  {
    if Strip(main) == Placeholder && Strip(alt) != Placeholder then alt
    else if Strip(alt) == Placeholder && Strip(main) != Placeholder then main
    else if Strip(main) != "" && Strip(alt) != "" then main + " / " + alt
    else if main != "" then main else alt
  }

  /** The title after the alternate-title rules: a placeholder title takes the
      first parenthesised group of the whole name; any other title with a
      parenthesised group (not a featuring note) is combined with it. */
  function ResolveAlternate(name: string, title: string): string {
    if Strip(title) == Placeholder then PlaceholderAlternate(name) else MergeAlternate(title)
  }

  /** A placeholder title: the first parenthesised group of the name, or the
      placeholder itself when the name has none. */
  function PlaceholderAlternate(name: string): string {
    match Search(name, Parenthesized)
    case None => Placeholder
    case Some(m) => AltText(Group(name, m))
  }

  /** A real title: its first parenthesised group, unless a featuring note,
      is taken out and combined with what is left. */
  function MergeAlternate(title: string): string {
    match Search(title, Parenthesized)
    case None => title
    case Some(m) =>
      var group := Group(title, m);
      if Search(group, FeatureMarker).Some? then title
      else ChooseTitle(Strip(Replace(title, title[m.start..m.end], "")), AltText(group))
  }

  /** `available_length` reads "snippet" (a non-string cell never does). */
  predicate IsSnippet(availableLength: Option<string>) {
    availableLength.Some? && Lower(Strip(availableLength.value)) == "snippet"
  }

  /** `quality` reads "low quality". */
  predicate IsLowQuality(quality: Option<string>) {
    quality.Some? && Lower(Strip(quality.value)) == "low quality"
  }

  /** Line breaks become spaces, runs of spaces one space, then strip. */
  function CleanSpacing(s: string): (r: string)
    ensures NoneIn(r, OneOf({'\n', '\r'}))
    ensures NoDoubleSpace(r)
    ensures |r| > 0 ==> !IsSpace(r[0]) && !IsSpace(r[|r| - 1])
  {
    var oneLine := ReplaceClass(ReplaceClass(s, OneOf({'\n'}), ' '), OneOf({'\r'}), ' ');
    var collapsed := CollapseSpaces(oneLine);
    CollapseSpacesFacts(oneLine);
    StripByKeepsNoneIn(collapsed, Whitespace, OneOf({'\n', '\r'}));
    StripByKeepsNoDoubleSpace(collapsed, Whitespace);
    Strip(collapsed)
  }

  /** The title with bracketed notes removed and the feature, snippet and
      low-quality suffixes appended, in that order. */
  function FinishTitle(title: string, feat: string, availableLength: Option<string>, quality: Option<string>): (r: string)
    ensures NoneIn(r, OneOf({'\n', '\r'})) && NoDoubleSpace(r)
  {
    CleanSpacing(Strip(SubAll(title, Bracketed)) + Suffixes(feat, IsSnippet(availableLength), IsLowQuality(quality)))
  }

  /** What follows the title body: the feature suffix, then ` (Snippet)`,
      then ` (LQ)`. */
  function Suffixes(feat: string, snippet: bool, lowQuality: bool): (r: string)
    ensures |feat| <= |r| && r[..|feat|] == feat
    ensures !snippet && !lowQuality ==> r == feat
  {
    (if snippet then feat + " (Snippet)" else feat) + (if lowQuality then " (LQ)" else "")
  }

  /** `process_title_and_metadata`. */
  function ProcessTitleAndMetadata(name: string, availableLength: Option<string>, quality: Option<string>): (md: Metadata)
    ensures NoneIn(md.title, OneOf({'\n', '\r'}))
    ensures NoDoubleSpace(md.title)
    ensures |md.title| > 0 ==> !IsSpace(md.title[0]) && !IsSpace(md.title[|md.title| - 1])
  {
    var (composer, afterProducer) := TakeProducer(name);
    var (feat, afterFeature) := TakeFeature(afterProducer);
    var (artist, title) := SplitArtist(afterFeature);
    Metadata(FinishTitle(ResolveAlternate(afterFeature, title), feat, availableLength, quality), artist, composer)
  }

  // Properties of the clean-up

  lemma ProducerNoteIff(s: string)
    ensures forall i: nat :: MatchesAt(s, ProducerNote, i) <==> NoteAt(s, ProducerWord, i, ')')
    ensures forall i: nat :: MatchesAt(s, ProducerNote, i) ==>
      Group(s, MatchAt(s, ProducerNote, i)) == NoteText(s, ProducerWord, i, ')')
  {
    forall i: nat ensures MatchesAt(s, ProducerNote, i) <==> NoteAt(s, ProducerWord, i, ')')
      ensures MatchesAt(s, ProducerNote, i) ==>
        Group(s, MatchAt(s, ProducerNote, i)) == NoteText(s, ProducerWord, i, ')')
    {
      NoteMatchIff(s, ProducerWord, i, ')');
    }
  }

  lemma FeatureNoteIff(s: string)
    ensures forall i: nat :: MatchesAt(s, FeatureNote, i) <==> NoteAt(s, FeatureWord, i, ')')
    ensures forall i: nat :: MatchesAt(s, FeatureNote, i) ==>
      Group(s, MatchAt(s, FeatureNote, i)) == NoteText(s, FeatureWord, i, ')')
  {
    forall i: nat ensures MatchesAt(s, FeatureNote, i) <==> NoteAt(s, FeatureWord, i, ')')
      ensures MatchesAt(s, FeatureNote, i) ==>
        Group(s, MatchAt(s, FeatureNote, i)) == NoteText(s, FeatureWord, i, ')')
    {
      NoteMatchIff(s, FeatureWord, i, ')');
    }
  }

  /** The composer is the stripped text of the first `(prod. ...)` note, in
      any letter case; a name without one has no composer. */
  lemma ComposerIsFirstProducerNote(name: string, availableLength: Option<string>, quality: Option<string>)
    ensures var c := ProcessTitleAndMetadata(name, availableLength, quality).composer;
      && (c.None? <==> forall i: nat :: !NoteAt(name, ProducerWord, i, ')'))
      && (c.Some? ==> exists i: nat ::
            && NoteAt(name, ProducerWord, i, ')')
            && (forall j: nat :: j < i ==> !NoteAt(name, ProducerWord, j, ')'))
            && c.value == Strip(NoteText(name, ProducerWord, i, ')')))
  {
    ProducerNoteIff(name);
  }

  /** The feature suffix is ` (Feat. ...)` built from the first featuring
      note, in title case; a name without one gets no suffix. */
  lemma FeatureSuffixIsFirstNote(name: string)
    ensures var feat := TakeFeature(name).0;
      && (feat == "" <==> forall i: nat :: !NoteAt(name, FeatureWord, i, ')'))
      && (feat != "" ==> exists i: nat ::
            && NoteAt(name, FeatureWord, i, ')')
            && (forall j: nat :: j < i ==> !NoteAt(name, FeatureWord, j, ')'))
            && feat == " (Feat." + TitleCase(NoteText(name, FeatureWord, i, ')')) + ")")
  {
    FeatureNoteIff(name);
    match Search(name, FeatureNote)
    case None =>
    case Some(m) =>
      FeatureSuffixOfMatch(name, m);
  }

  lemma FeatureSuffixOfMatch(name: string, m: Match)
    requires Search(name, FeatureNote) == Some(m)
    ensures NoteAt(name, FeatureWord, m.start, ')')
    ensures TakeFeature(name).0 == " (Feat." + TitleCase(NoteText(name, FeatureWord, m.start, ')')) + ")"
  {
    assert forall t :: 0 <= t < |FeatureWord| ==> !IsAsciiUpper(FeatureWord[t]);
    NoteMatchIff(name, FeatureWord, m.start, ')');
    FeatureSuffixText(name, m.start, m.runEnd);
  }

  /** The suffix built from a note whose head spells "(feat.". */
  lemma FeatureSuffixText(s: string, i: nat, e: nat)
    requires i + 6 <= e <= |s| && Lower(s[i..i + 6]) == FeatureWord
    ensures " (" + TitleCase(s[i + 1..e]) + ")" == " (Feat." + TitleCase(s[i + 6..e]) + ")"
  {
    var word := s[i + 1..i + 6];
    var text := s[i + 6..e];
    assert s[i + 1..e] == word + text;
    FeatureWordTitle(s, i);
    TitleCaseAppend(word, text);
  }

  /** However the note spells "feat.", title case makes it "Feat.". */
  lemma FeatureWordTitle(s: string, i: nat)
    requires i + 6 <= |s| && Lower(s[i..i + 6]) == FeatureWord
    ensures TitleCase(s[i + 1..i + 6]) == "Feat."
    ensures s[i + 5] == '.'
  {
    assert Lower(s[i..i + 6])[5] == ToLower(s[i + 5]);
    var w := s[i + 1..i + 6];
    forall t | 0 <= t < 5 ensures ToLower(w[t]) == "feat."[t] {
      assert Lower(s[i..i + 6])[t + 1] == ToLower(s[i + 1 + t]);
    }
  }

  /** The artist is the stripped text before the first ` - ` of the name left
      once the notes are removed; a name without the separator has none. */
  lemma ArtistIsTextBeforeFirstSeparator(name: string, availableLength: Option<string>, quality: Option<string>)
    ensures var rest := TakeFeature(TakeProducer(name).1).1;
      var artist := ProcessTitleAndMetadata(name, availableLength, quality).artist;
      && (artist.None? <==> forall k: nat :: !OccursAt(rest, " - ", k))
      && (artist.Some? ==> exists k: nat ::
            && OccursAt(rest, " - ", k)
            && (forall j: nat :: j < k ==> !OccursAt(rest, " - ", j))
            && artist.value == Strip(rest[..k]))
  {
  }

  /** The clean-up keeps a spaced suffix that is already clean. */
  lemma CleanSpacingKeepsSuffix(a: string, b: string)
    requires |b| >= 2 && b[0] == ' ' && !IsSpace(b[1]) && !IsSpace(b[|b| - 1])
    requires NoneIn(b, OneOf({'\n', '\r'})) && NoDoubleSpace(b)
    ensures EndsWith(CleanSpacing(a + b), b[1..])
  {
    var n := OneOf({'\n'});
    var r := OneOf({'\r'});
    ReplaceClassAppend(a, b, n, ' ');
    ReplaceClassNoop(b, n, ' ');
    var a1 := ReplaceClass(a, n, ' ');
    ReplaceClassAppend(a1, b, r, ' ');
    ReplaceClassNoop(b, r, ' ');
    var a2 := ReplaceClass(a1, r, ' ');
    var y := CollapseSpacesKeepsTail(a2, b);
    assert y + b == (y + " ") + b[1..];
    StripKeepsTail(y + " ", b[1..]);
  }

  /** The suffix literals meet the premises of `CleanSpacingKeepsSuffix`. */
  predicate CleanSuffix(b: string) {
    && |b| >= 2 && b[0] == ' ' && !IsSpace(b[1]) && !IsSpace(b[|b| - 1])
    && NoneIn(b, OneOf({'\n', '\r'})) && NoDoubleSpace(b)
  }

  lemma SuffixesClean()
    ensures CleanSuffix(" (Snippet) (LQ)") && CleanSuffix(" (LQ)") && CleanSuffix(" (Snippet)")
  {
  }

  /** The suffixes come last, in the order snippet, then low quality. */
  lemma FinishTitleSuffixes(title: string, feat: string, availableLength: Option<string>, quality: Option<string>)
    ensures var t := FinishTitle(title, feat, availableLength, quality);
      && (IsLowQuality(quality) && IsSnippet(availableLength) ==> EndsWith(t, "(Snippet) (LQ)"))
      && (IsLowQuality(quality) && !IsSnippet(availableLength) ==> EndsWith(t, "(LQ)"))
      && (!IsLowQuality(quality) && IsSnippet(availableLength) ==> EndsWith(t, "(Snippet)"))
  {
    SuffixesClean();
    SuffixTails();
    var snippet, lowQuality := IsSnippet(availableLength), IsLowQuality(quality);
    if lowQuality && snippet {
      SuffixesBoth(feat);
      FinishTitleSuffix(title, feat, availableLength, quality, " (Snippet) (LQ)");
    } else if lowQuality {
      FinishTitleSuffix(title, feat, availableLength, quality, " (LQ)");
    } else if snippet {
      SuffixesSnippetOnly(feat);
      FinishTitleSuffix(title, feat, availableLength, quality, " (Snippet)");
    }
  }

  lemma SuffixTails()
    ensures " (Snippet) (LQ)"[1..] == "(Snippet) (LQ)" && " (LQ)"[1..] == "(LQ)" && " (Snippet)"[1..] == "(Snippet)"
  {
  }

  lemma SuffixesBoth(feat: string)
    ensures Suffixes(feat, true, true) == feat + " (Snippet) (LQ)"
  {
    AppendAssoc(feat, " (Snippet)", " (LQ)");
    assert " (Snippet)" + " (LQ)" == " (Snippet) (LQ)";
  }

  lemma SuffixesSnippetOnly(feat: string)
    ensures Suffixes(feat, true, false) == feat + " (Snippet)"
  {
    assert feat + " (Snippet)" + "" == feat + " (Snippet)";
  }

  lemma FinishTitleSuffix(title: string, feat: string, availableLength: Option<string>, quality: Option<string>, b: string)
    requires CleanSuffix(b)
    requires Suffixes(feat, IsSnippet(availableLength), IsLowQuality(quality)) == feat + b
    ensures EndsWith(FinishTitle(title, feat, availableLength, quality), b[1..])
  {
    var body := Strip(SubAll(title, Bracketed));
    AppendAssoc(body, feat, b);
    CleanSpacingKeepsSuffix(body + feat, b);
  }

  lemma TitleEndsWithSuffixes(name: string, availableLength: Option<string>, quality: Option<string>)
    ensures var title := ProcessTitleAndMetadata(name, availableLength, quality).title;
      && (IsLowQuality(quality) && IsSnippet(availableLength) ==> EndsWith(title, "(Snippet) (LQ)"))
      && (IsLowQuality(quality) && !IsSnippet(availableLength) ==> EndsWith(title, "(LQ)"))
      && (!IsLowQuality(quality) && IsSnippet(availableLength) ==> EndsWith(title, "(Snippet)"))
  {
    var afterProducer := TakeProducer(name).1;
    var (feat, afterFeature) := TakeFeature(afterProducer);
    var title := SplitArtist(afterFeature).1;
    FinishTitleSuffixes(ResolveAlternate(afterFeature, title), feat, availableLength, quality);
  }

  lemma CleanSuffixConcat(a: string, b: string)
    requires CleanSuffix(a) && CleanSuffix(b)
    ensures CleanSuffix(a + b)
  {
    NoDoubleSpaceConcat(a, b);
    assert (a + b)[1] == a[1];
  }

  /** The suffixes after the feature suffix. */
  lemma SuffixesSplit(feat: string, snippet: bool, lowQuality: bool)
    ensures Suffixes(feat, snippet, lowQuality) == feat + Suffixes("", snippet, lowQuality)
  {
    if snippet {
      assert "" + " (Snippet)" == " (Snippet)";
    }
  }

  lemma SuffixesWithoutFeature(snippet: bool, lowQuality: bool)
    ensures Suffixes("", snippet, lowQuality) == "" || CleanSuffix(Suffixes("", snippet, lowQuality))
  {
    SuffixesClean();
    if snippet && lowQuality {
      assert Suffixes("", snippet, lowQuality) == " (Snippet) (LQ)";
    } else if snippet {
      assert Suffixes("", snippet, lowQuality) == " (Snippet)";
    } else if lowQuality {
      assert Suffixes("", snippet, lowQuality) == " (LQ)";
    }
  }

  /** Behind a clean feature suffix (or none), the whole run of suffixes is clean. */
  lemma SuffixesCleanAfter(feat: string, snippet: bool, lowQuality: bool)
    requires feat == "" || CleanSuffix(feat)
    ensures Suffixes(feat, snippet, lowQuality) == "" || CleanSuffix(Suffixes(feat, snippet, lowQuality))
  {
    SuffixesSplit(feat, snippet, lowQuality);
    SuffixesWithoutFeature(snippet, lowQuality);
    var tail := Suffixes("", snippet, lowQuality);
    if feat != "" && tail != "" {
      CleanSuffixConcat(feat, tail);
    } else {
      assert feat + tail == if feat == "" then tail else feat;
    }
  }

  /** With a clean feature suffix the title ends with every suffix it is
      given, in the order feature, snippet, low quality. */
  lemma FinishTitleKeepsSuffixes(title: string, feat: string, availableLength: Option<string>, quality: Option<string>)
    requires feat == "" || CleanSuffix(feat)
    ensures var b := Suffixes(feat, IsSnippet(availableLength), IsLowQuality(quality));
      b != "" ==> EndsWith(FinishTitle(title, feat, availableLength, quality), b[1..])
  {
    var b := Suffixes(feat, IsSnippet(availableLength), IsLowQuality(quality));
    SuffixesCleanAfter(feat, IsSnippet(availableLength), IsLowQuality(quality));
    if b != "" {
      CleanSpacingKeepsSuffix(Strip(SubAll(title, Bracketed)), b);
    }
  }

  lemma TitleEndsWithAllSuffixes(name: string, availableLength: Option<string>, quality: Option<string>)
    ensures var feat := TakeFeature(TakeProducer(name).1).0;
      var b := Suffixes(feat, IsSnippet(availableLength), IsLowQuality(quality));
      (feat == "" || CleanSuffix(feat)) && b != "" ==>
        EndsWith(ProcessTitleAndMetadata(name, availableLength, quality).title, b[1..])
  {
    var afterProducer := TakeProducer(name).1;
    var (feat, afterFeature) := TakeFeature(afterProducer);
    var title := SplitArtist(afterFeature).1;
    if feat == "" || CleanSuffix(feat) {
      FinishTitleKeepsSuffixes(ResolveAlternate(afterFeature, title), feat, availableLength, quality);
    }
  }

  // The notes the clean-up removes are gone from what it keeps

  /** No `[` has a `]` anywhere after it. */
  predicate NoOpenBeforeClose(s: string) {
    forall i, j :: 0 <= i < j < |s| && s[i] == '[' ==> s[j] != ']'
  }

  /** A `[` with a `]` somewhere after it starts a match of `\[[^\]]*\]`. */
  lemma OpenBeforeCloseMatches(s: string, i: nat, j: nat)
    ensures i < j < |s| && s[i] == '[' && s[j] == ']' ==> MatchesAt(s, Bracketed, i)
  {
    if i < j < |s| && s[i] == '[' && s[j] == ']' {
      var n := RunLength(s, i + 1, AllBut(']'));
      assert s[i + 0] in Bracketed.lead[0];
    }
  }

  /** A match of `\[[^\]]*\]` opens with `[` and closes with a later `]`. */
  lemma BracketMatchEnds(s: string, i: nat)
    ensures MatchesAt(s, Bracketed, i) ==>
      var e := i + 1 + RunLength(s, i + 1, AllBut(']'));
      i < e < |s| && s[i] == '[' && s[e] == ']'
  {
    if MatchesAt(s, Bracketed, i) {
      assert s[i + 0] in Bracketed.lead[0];
    }
  }

  lemma NoBracketMatchAt(s: string, i: nat)
    requires NoOpenBeforeClose(s)
    ensures !MatchesAt(s, Bracketed, i)
  {
    BracketMatchEnds(s, i);
  }

  lemma NoOpenBeforeCloseNoMatch(s: string)
    requires NoOpenBeforeClose(s)
    ensures forall i: nat :: !MatchesAt(s, Bracketed, i)
  {
    forall i: nat ensures !MatchesAt(s, Bracketed, i) {
      NoBracketMatchAt(s, i);
    }
  }

  lemma SliceKeepsNoOpenBeforeClose(s: string, a: nat, b: nat)
    requires a <= b <= |s| && NoOpenBeforeClose(s)
    ensures NoOpenBeforeClose(s[a..b])
  {
    forall i, j | 0 <= i < j < b - a && s[a..b][i] == '[' ensures s[a..b][j] != ']' {
      assert s[a..b][i] == s[a + i] && s[a..b][j] == s[a + j];
    }
  }

  /** What `re.sub` keeps of the bracketed notes: every `[` comes after every `]`. */
  lemma {:induction false} SubAllBracketsShape(s: string)
    ensures NoOpenBeforeClose(SubAll(s, Bracketed))
    decreases |s|
  {
    match Search(s, Bracketed)
    case None =>
      NoMatchShape(s);
    case Some(m) =>
      SubAllBracketsShape(s[m.end..]);
      SubAllStep(s, Bracketed, m);
      MatchShape(s, m, SubAll(s[m.end..], Bracketed));
  }

  lemma NoMatchShape(s: string)
    requires Search(s, Bracketed) == None
    ensures NoOpenBeforeClose(s)
  {
    forall i, j | 0 <= i < j < |s| && s[i] == '[' ensures s[j] != ']' {
      OpenBeforeCloseMatches(s, i, j);
    }
  }

  /** Nothing before the first bracketed note opens a bracket. */
  lemma MatchShape(s: string, m: Match, r: string)
    requires Search(s, Bracketed) == Some(m) && NoOpenBeforeClose(r)
    ensures NoOpenBeforeClose(s[..m.start] + r)
  {
    var p := s[..m.start];
    BracketMatchEnds(s, m.start);
    forall i | 0 <= i < |p| ensures p[i] != '[' {
      OpenBeforeCloseMatches(s, i, m.end - 1);
    }
    forall i, j | 0 <= i < j < |p + r| && (p + r)[i] == '[' ensures (p + r)[j] != ']' {
      assert (p + r)[i] == r[i - |p|] && (p + r)[j] == r[j - |p|];
    }
  }

  /** No `[...]` note is left in the title body. */
  lemma BracketedNotesRemoved(title: string)
    ensures forall i: nat :: !MatchesAt(SubAll(title, Bracketed), Bracketed, i)
    ensures forall i: nat :: !MatchesAt(Strip(SubAll(title, Bracketed)), Bracketed, i)
  {
    var r := SubAll(title, Bracketed);
    SubAllBracketsShape(title);
    var a, b := StripBySlice(r, Whitespace);
    SliceKeepsNoOpenBeforeClose(r, a, b);
    NoOpenBeforeCloseNoMatch(r);
    NoOpenBeforeCloseNoMatch(r[a..b]);
  }

  /** Parentheses do not nest: between two `(` there is always a `)`. */
  predicate ParensDoNotNest(s: string) {
    forall i, j :: 0 <= i < j < |s| && s[i] == '(' && s[j] == '(' ==> ')' in s[i + 1..j]
  }

  lemma SuffixKeepsParensDoNotNest(s: string, e: nat)
    requires e <= |s| && ParensDoNotNest(s)
    ensures ParensDoNotNest(s[e..])
  {
    var t := s[e..];
    forall i, j | 0 <= i < j < |t| && t[i] == '(' && t[j] == '(' ensures ')' in t[i + 1..j] {
      assert t[i] == s[e + i] && t[j] == s[e + j];
      assert t[i + 1..j] == s[e + i + 1..e + j];
    }
  }

  /** A text spelling "(feat." in any case opens with `(` and holds no `)`. */
  lemma FeatureHeadChars(x: string)
    requires |x| == 6 && Lower(x) == FeatureWord
    ensures x[0] == '(' && forall t :: 0 < t < 6 ==> x[t] != ')'
  {
    assert Lower(x)[0] == ToLower(x[0]) && FeatureWord[0] == '(';
    forall t | 0 < t < 6 ensures x[t] != ')' {
      assert ToLower(x[t]) == FeatureWord[t];
    }
  }

  /** A note of `p + r` that starts past the end of `p` is a note of `r`. */
  lemma NoteAtShift(p: string, r: string, w: string, i: nat, close: char)
    requires |p| <= i
    ensures NoteAt(p + r, w, i, close) ==> NoteAt(r, w, i - |p|, close)
  {
    if NoteAt(p + r, w, i, close) {
      var k := i - |p|;
      assert (p + r)[i..i + |w|] == r[k..k + |w|];
      assert (p + r)[i + |w|..] == r[k + |w|..];
    }
  }

  lemma SliceOfSlice(s: string, a: nat, b: nat, i: nat, j: nat)
    requires a <= b <= |s| && i <= j <= b - a
    ensures s[a..b][i..j] == s[a + i..a + j]
  {
    assert forall k :: 0 <= k < j - i ==> s[a..b][i..j][k] == s[a + i..a + j][k];
  }

  lemma NoteInSlice(s: string, a: nat, b: nat, w: string, i: nat, close: char)
    requires a <= b <= |s|
    ensures NoteAt(s[a..b], w, i, close) ==> NoteAt(s, w, a + i, close)
  {
    var t := s[a..b];
    if NoteAt(t, w, i, close) {
      SliceOfSlice(s, a, b, i, i + |w|);
      var d :| 0 <= d < |t[i + |w|..]| && t[i + |w|..][d] == close;
      assert s[a + i + |w|..][d] == close;
    }
  }

  /** Before the first note, the text `re.sub` keeps holds a note only where
      `s` itself does, as long as parentheses do not nest. */
  lemma NoteBeforeMatch(s: string, m: Match, r: string, i: nat)
    requires ParensDoNotNest(s) && Search(s, FeatureNote) == Some(m) && i < m.start
    ensures NoteAt(s[..m.start] + r, FeatureWord, i, ')') ==> NoteAt(s, FeatureWord, i, ')')
  {
    var t := s[..m.start] + r;
    if NoteAt(t, FeatureWord, i, ')') {
      LeadAtHead(s, m.start, FeatureNote.lead);
      assert FeatureNote.lead[0] == {'('};
      FeatureHeadChars(t[i..i + 6]);
      assert s[i] == t[i] == t[i..i + 6][0];
      var k := CloseBetween(s, i, m.start);
      NoteFromPrefix(s, m.start, r, i, k);
    }
  }

  lemma CloseBetween(s: string, i: nat, j: nat) returns (k: nat)
    requires ParensDoNotNest(s) && i < j < |s| && s[i] == '(' && s[j] == '('
    ensures i < k < j && s[k] == ')'
  {
    var d :| 0 <= d < |s[i + 1..j]| && s[i + 1..j][d] == ')';
    k := i + 1 + d;
  }

  /** A note of `s[..a] + r` whose closing `)` lies before `a` is a note of `s`. */
  lemma NoteFromPrefix(s: string, a: nat, r: string, i: nat, k: nat)
    requires i < k < a <= |s| && s[k] == ')'
    requires NoteAt(s[..a] + r, FeatureWord, i, ')')
    ensures NoteAt(s, FeatureWord, i, ')')
  {
    var t := s[..a] + r;
    FeatureHeadChars(t[i..i + 6]);
    assert t[k] == s[k];
    assert s[i..i + 6] == t[i..i + 6];
    assert s[i + 6..][k - i - 6] == ')';
  }

  /** `re.sub` of the featuring notes leaves none behind when parentheses
      do not nest. */
  lemma {:induction false} SubAllFeatureShape(s: string)
    requires ParensDoNotNest(s)
    ensures forall i: nat :: !NoteAt(SubAll(s, FeatureNote), FeatureWord, i, ')')
    decreases |s|
  {
    FeatureNoteIff(s);
    match Search(s, FeatureNote)
    case None =>
    case Some(m) =>
      var rest := s[m.end..];
      SuffixKeepsParensDoNotNest(s, m.end);
      SubAllFeatureShape(rest);
      var p := s[..m.start];
      var r := SubAll(rest, FeatureNote);
      assert SubAll(s, FeatureNote) == p + r;
      forall i: nat ensures !NoteAt(p + r, FeatureWord, i, ')') {
        if i >= |p| {
          NoteAtShift(p, r, FeatureWord, i, ')');
        } else {
          NoteBeforeMatch(s, m, r, i);
        }
      }
  }

  /** Every featuring note is removed from a name whose parentheses do not
      nest. */
  lemma FeatureNotesRemoved(name: string)
    requires ParensDoNotNest(name)
    ensures forall i: nat :: !NoteAt(TakeFeature(name).1, FeatureWord, i, ')')
  {
    FeatureNoteIff(name);
    match Search(name, FeatureNote)
    case None =>
    case Some(m) =>
      var r := SubAll(name, FeatureNote);
      SubAllFeatureShape(name);
      var a, b := StripBySlice(r, Whitespace);
      forall i: nat ensures !NoteAt(r[a..b], FeatureWord, i, ')') {
        NoteInSlice(r, a, b, FeatureWord, i, ')');
      }
  }

  /** A featuring note inside another parenthesis: removing it joins the
      outer `(` to the text after it, which reads as a note again. */
  lemma NestedFeatureNoteSurvives()
    ensures TakeFeature("((feat. a)feat. b)").1 == "(feat. b)"
    ensures NoteAt("(feat. b)", FeatureWord, 0, ')')
  {
    NestedNoteFound();
    NestedRemainder();
    NestedRemainderIsNote();
  }

  lemma NestedRemainder()
    ensures Strip(SubAll("((feat. a)feat. b)", FeatureNote)) == "(feat. b)"
  {
    NestedSubAll();
    StripKeepsNote();
  }

  lemma StripKeepsNote()
    ensures Strip("(feat. b)") == "(feat. b)"
  {
    var t := "(feat. b)";
    assert t[0] == '(' && t[|t| - 1] == ')';
    StripByNoop(t, Whitespace);
  }

  lemma NestedSubAll()
    ensures SubAll("((feat. a)feat. b)", FeatureNote) == "(feat. b)"
  {
    NestedSubAllOf("((feat. a)feat. b)");
  }

  lemma NestedSubAllOf(name: string)
    requires name == "((feat. a)feat. b)"
    ensures SubAll(name, FeatureNote) == "(feat. b)"
  {
    var head, rest := name[..1], name[10..];
    assert head == "(" && rest == "feat. b)";
    NestedNoteFound();
    NestedRestKept();
    SubAllOfOneMatch(name, FeatureNote, Match(1, 7, 9, 10));
    NestedJoin();
  }

  lemma NestedJoin()
    ensures "(" + "feat. b)" == "(feat. b)"
  {
  }

  lemma NestedNoteFound()
    ensures Search("((feat. a)feat. b)", FeatureNote) == Some(Match(1, 7, 9, 10))
  {
    NestedNoteFoundOf("((feat. a)feat. b)");
  }

  lemma NestedNoteFoundOf(name: string)
    requires name == "((feat. a)feat. b)"
    ensures Search(name, FeatureNote) == Some(Match(1, 7, 9, 10))
  {
    NestedNoteAt(name);
    NoteIsMatch(name, FeatureWord, 1, ')');
    NestedNoLeadAtStart(name);
    SearchFindsFirst(name, FeatureNote, 1);
    NestedRunLength(name);
    assert |FeatureNote.lead| == 6;
  }

  lemma NestedNoteAt(name: string)
    requires name == "((feat. a)feat. b)"
    ensures NoteAt(name, FeatureWord, 1, ')')
  {
    assert name[1..7] == FeatureWord;
    assert name[7..][2] == ')';
  }

  lemma NestedNoLeadAtStart(name: string)
    requires name == "((feat. a)feat. b)"
    ensures !LeadAt(name, 0, FeatureNote.lead)
  {
    assert name[0 + 1] !in FeatureNote.lead[1];
  }

  lemma NestedRunLength(name: string)
    requires name == "((feat. a)feat. b)"
    ensures RunLength(name, 7, AllBut(')')) == 2
  {
    RunLengthExact(name, 7, AllBut(')'), 2);
  }

  lemma NestedRemainderIsNote()
    ensures NoteAt("(feat. b)", FeatureWord, 0, ')')
  {
    var t := "(feat. b)";
    assert t[0..6] == FeatureWord;
    assert t[6..][2] == ')';
  }

  lemma NestedRestKept()
    ensures SubAll("feat. b)", FeatureNote) == "feat. b)"
  {
    assert FeatureNote.lead[0] == {'('};
    SearchLeadMissing("feat. b)", FeatureNote);
  }
}
