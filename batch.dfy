/** The batch run: which rows of an era are fetched, the bucket each finished
    download lands in, the per-era and overall tallies, and the menu
    validation around them. */
module BatchDownload {
  import opened Text
  import opened Parser
  import opened ParseErrors
  import opened Downloader

  const DownloadDir := "downloads"
  const Mp3 := ".mp3"

  // ---------------------------------------------------------------------------
  // The era folder

  /** `os.path.join(DOWNLOAD_DIR, sanitize_folder_name(selected_era))`. */
  function EraFolder(era: string): string {
    PathJoin(DownloadDir, SanitizeFolderName(era))
  }

  /** The era folder is `downloads/` followed by one path component: a
      sanitized name holds no `/`, so the join never replaces `downloads`.
      The component itself may still be `..`, `.` or empty; see
      `EraFolderOfDotNames`. */
  lemma EraFolderInDownloads(era: string)
    ensures EraFolder(era) == DownloadDir + "/" + SanitizeFolderName(era)
    ensures '/' !in SanitizeFolderName(era)
  {
    var name := SanitizeFolderName(era);
    assert forall i :: 0 <= i < |name| ==> !InClass(name[i], Reserved);
    if |name| > 0 {
      assert !InClass(name[0], Reserved);
    }
  }

  /** Sanitizing leaves `..` and `.` alone and empties a blank era, so such
      an era's folder is the parent of `downloads`, or `downloads` itself. */
  lemma EraFolderOfDotNames()
    ensures EraFolder("..") == DownloadDir + "/" + ".."
    ensures EraFolder(".") == DownloadDir + "/" + "."
    ensures EraFolder(" ") == DownloadDir + "/"
  {
    EraFolderOfDots("..");
    EraFolderOfDots(".");
    EraFolderOfBlank(" ");
  }

  lemma EraFolderOfDots(name: string)
    requires name == ".." || name == "."
    ensures EraFolder(name) == DownloadDir + "/" + name
  {
    SanitizeDots(name);
  }

  lemma EraFolderOfBlank(name: string)
    requires name == " "
    ensures EraFolder(name) == DownloadDir + "/"
  {
    SanitizeBlank(name);
  }

  lemma SanitizeDots(name: string)
    requires name == ".." || name == "."
    ensures SanitizeFolderName(name) == name
  {
    ReplaceClassNoop(name, Reserved, '_');
    StripByNoop(name, Whitespace);
  }

  lemma SanitizeBlank(name: string)
    requires name == " "
    ensures SanitizeFolderName(name) == ""
  {
    ReplaceClassNoop(name, Reserved, '_');
    StripLeftAll(name, Whitespace);
  }

  // ---------------------------------------------------------------------------
  // The row filter of `process_era`

  /** The columns a manifest's roles name are all present. */
  predicate HasRoles(columns: seq<string>, nameCol: string, linkCol: string,
                     lengthCol: Option<string>, qualityCol: Option<string>) {
    && EraColumn in columns && nameCol in columns && linkCol in columns
    && (lengthCol.Some? ==> lengthCol.value in columns)
    && (qualityCol.Some? ==> qualityCol.value in columns)
  }

  /** `df['Era'].str.strip().str.lower() == selected_era.strip().lower()`;
      a missing cell matches nothing. */
  predicate EraMatches(cell: Option<string>, selected: string) {
    cell.Some? && Lower(Strip(cell.value)) == Lower(Strip(selected))
  }

  /** The row is of the selected era and has a link. */
  predicate Wanted(columns: seq<string>, row: Row, era: string, linkCol: string)
    requires EraColumn in columns && linkCol in columns
  {
    EraMatches(Cell(columns, row, EraColumn), era) && HasLink(columns, row, linkCol)
  }

  /** `filtered`: the wanted rows, in table order. */
  function FilterRows(columns: seq<string>, rows: seq<Row>, era: string, linkCol: string): (r: seq<Row>)
    requires EraColumn in columns && linkCol in columns
    ensures |r| <= |rows|
    ensures forall k :: 0 <= k < |r| ==> Wanted(columns, r[k], era, linkCol)
    decreases |rows|
  {
    if rows == [] then []
    else
      var last := rows[|rows| - 1];
      FilterRows(columns, rows[..|rows| - 1], era, linkCol) + (if Wanted(columns, last, era, linkCol) then [last] else [])
  }

  /** Filtering commutes with concatenation, so the kept rows stay in their
      table order. */
  lemma {:induction false} FilterAppend(columns: seq<string>, a: seq<Row>, b: seq<Row>, era: string, linkCol: string)
    requires EraColumn in columns && linkCol in columns
    ensures FilterRows(columns, a + b, era, linkCol) == FilterRows(columns, a, era, linkCol) + FilterRows(columns, b, era, linkCol)
    decreases |b|
  {
    if b == [] {
      assert a + b == a;
    } else {
      var b' := b[..|b| - 1];
      var last := b[|b| - 1];
      assert (a + b)[..|a + b| - 1] == a + b';
      assert (a + b)[|a + b| - 1] == last;
      FilterLast(columns, a + b, era, linkCol);
      FilterLast(columns, b, era, linkCol);
      FilterAppend(columns, a, b', era, linkCol);
      AppendLast(FilterRows(columns, a + b, era, linkCol), FilterRows(columns, a + b', era, linkCol),
                 FilterRows(columns, a, era, linkCol), FilterRows(columns, b, era, linkCol),
                 FilterRows(columns, b', era, linkCol), if Wanted(columns, last, era, linkCol) then [last] else []);
    }
  }

  /** One filtering step: the last row is kept iff it is wanted. */
  lemma FilterLast(columns: seq<string>, rows: seq<Row>, era: string, linkCol: string)
    requires EraColumn in columns && linkCol in columns && rows != []
    ensures FilterRows(columns, rows, era, linkCol) ==
      FilterRows(columns, rows[..|rows| - 1], era, linkCol) +
      (if Wanted(columns, rows[|rows| - 1], era, linkCol) then [rows[|rows| - 1]] else [])
  {
  }

  /** If `ab` and `b` both grow from `ab'` and `b'` by the same tail, and
      `ab'` is `a + b'`, then `ab` is `a + b`. */
  lemma AppendLast<T>(ab: seq<T>, ab': seq<T>, a: seq<T>, b: seq<T>, b': seq<T>, t: seq<T>)
    requires ab == ab' + t && b == b' + t && ab' == a + b'
    ensures ab == a + b
  {
    assert a + b' + t == a + (b' + t);
  }

  /** Eras that differ only in letter case or surrounding whitespace select
      the same rows, so listing both downloads those rows twice. */
  lemma {:induction false} FilterSameKey(columns: seq<string>, rows: seq<Row>, era: string, other: string, linkCol: string)
    requires EraColumn in columns && linkCol in columns
    requires Lower(Strip(era)) == Lower(Strip(other))
    ensures FilterRows(columns, rows, era, linkCol) == FilterRows(columns, rows, other, linkCol)
    decreases |rows|
  {
    if rows != [] {
      FilterSameKey(columns, rows[..|rows| - 1], era, other, linkCol);
    }
  }

  /** A row is kept exactly when it is in the table and wanted. */
  lemma {:induction false} FilterKeepsExactly(columns: seq<string>, rows: seq<Row>, era: string, linkCol: string)
    requires EraColumn in columns && linkCol in columns
    ensures forall row :: row in FilterRows(columns, rows, era, linkCol) <==> row in rows && Wanted(columns, row, era, linkCol)
    decreases |rows|
  {
    if rows != [] {
      var p := rows[..|rows| - 1];
      FilterKeepsExactly(columns, p, era, linkCol);
      assert rows == p + [rows[|rows| - 1]];
    }
  }

  // ---------------------------------------------------------------------------
  // One task: `download_and_tag`

  /** What the outside world does for one row: the reply to the download
      request, and whether `embed_metadata` raises. */
  datatype Attempt = Attempt(response: Response, embedRaises: bool)

  datatype Bucket = TaggedBucket | NotTaggedBucket | FailedBucket

  /** One appended entry: its list and its text. */
  datatype Entry = Entry(bucket: Bucket, text: string)

  /** `row[col]` as a task uses it: the text of the cell, or `None` for a
      missing cell and for a name two columns share. `row[col]` is then a
      Series, which `process_title_and_metadata` raises on and
      `isinstance(..., str)` turns down, just as it does a missing cell. */
  function Field(columns: seq<string>, row: Row, col: string): Option<string>
    requires col in columns
  {
    if Repeated(columns, col) then None else Cell(columns, row, col)
  }

  /** `row[col] if col else None`. */
  function OptionalCell(columns: seq<string>, row: Row, col: Option<string>): Option<string>
    requires col.Some? ==> col.value in columns
  {
    if Truthy(col) then Field(columns, row, col.value) else None
  }

  /** `row[link_col].strip()`. */
  function TrackUrl(columns: seq<string>, row: Row, linkCol: string): string
    requires linkCol in columns && HasLink(columns, row, linkCol)
  {
    Strip(Cell(columns, row, linkCol).value)
  }

  function FailureRecord(title: string, url: string): string {
    title + " (url: " + url + ")"
  }

  /** The entry `download_and_tag` appends for a row with this name, length,
      quality and link, or `None` when it raises: a missing name makes
      `process_title_and_metadata` fail, and the executor swallows that. */
  function Task(name: Option<string>, length: Option<string>, quality: Option<string>, url: string,
                folder: string, attempt: Attempt): Option<Entry>
  {
    if name.None? then None
    else
      var title := ProcessTitleAndMetadata(name.value, length, quality).title;
      Some(Route(title, url, DownloadFile(url, folder, title, attempt.response), attempt.embedRaises))
  }

  /** The three-way decision on a finished download. */
  function Route(title: string, url: string, d: Option<Download>, embedRaises: bool): Entry {
    if d.Some? && d.value.path != "" && title != "" then
      if d.value.ext == Mp3 && !embedRaises then Entry(TaggedBucket, d.value.path)
      else Entry(NotTaggedBucket, d.value.path)
    else Entry(FailedBucket, FailureRecord(title, url))
  }

  /** The task for one filtered row. */
  function TaskOutcome(columns: seq<string>, row: Row, nameCol: string, linkCol: string,
                       lengthCol: Option<string>, qualityCol: Option<string>,
                       folder: string, attempt: Attempt): Option<Entry>
    requires HasRoles(columns, nameCol, linkCol, lengthCol, qualityCol) && HasLink(columns, row, linkCol)
  {
    Task(Field(columns, row, nameCol), OptionalCell(columns, row, lengthCol), OptionalCell(columns, row, qualityCol),
         TrackUrl(columns, row, linkCol), folder, attempt)
  }

  /** A saved track always has a non-empty path, so `if mp3_path` only
      tests whether the download happened. */
  lemma SavedPathIsNonEmpty(url: string, folder: string, title: string, response: Response)
    ensures DownloadFile(url, folder, title, response).Some? ==> DownloadFile(url, folder, title, response).value.path != ""
  {
    if DownloadFile(url, folder, title, response).Some? {
      DownloadLandsInFolder(url, folder, title, response);
    }
  }

  /** The routing of `download_and_tag`, in terms of the link, the reply and
      the title: a saved `.mp3` that tags cleanly is tagged; a saved file
      that is not `.mp3`, or whose tagging raises, is not tagged; a link that
      cannot be fetched or an empty title is a failure recorded with its
      title and link. */
  lemma Routing(title: string, url: string, folder: string, attempt: Attempt)
    ensures Route(title, url, DownloadFile(url, folder, title, attempt.response), attempt.embedRaises).bucket == TaggedBucket <==>
      && ResolveHost(url).Ok? && attempt.response.Delivered? && title != ""
      && ExtensionFor(attempt.response.contentType) == Mp3 && !attempt.embedRaises
    ensures Route(title, url, DownloadFile(url, folder, title, attempt.response), attempt.embedRaises).bucket == NotTaggedBucket <==>
      && ResolveHost(url).Ok? && attempt.response.Delivered? && title != ""
      && (ExtensionFor(attempt.response.contentType) != Mp3 || attempt.embedRaises)
    ensures Route(title, url, DownloadFile(url, folder, title, attempt.response), attempt.embedRaises).bucket == FailedBucket <==>
      ResolveHost(url).Err? || attempt.response.Failed? || title == ""
    ensures Route(title, url, DownloadFile(url, folder, title, attempt.response), attempt.embedRaises).bucket == FailedBucket ==>
      Route(title, url, DownloadFile(url, folder, title, attempt.response), attempt.embedRaises).text == FailureRecord(title, url)
    ensures Route(title, url, DownloadFile(url, folder, title, attempt.response), attempt.embedRaises).bucket != FailedBucket ==>
      Route(title, url, DownloadFile(url, folder, title, attempt.response), attempt.embedRaises).text ==
        DownloadFile(url, folder, title, attempt.response).value.path
  {
    SavedPathIsNonEmpty(url, folder, title, attempt.response);
  }

  // ---------------------------------------------------------------------------
  // The tallies

  /** `{'tagged': [], 'not_tagged': [], 'failed': []}`. */
  class Tally {
    var tagged: seq<string>
    var notTagged: seq<string>
    var failed: seq<string>

    constructor ()
      ensures tagged == [] && notTagged == [] && failed == []
    {
      tagged, notTagged, failed := [], [], [];
    }

    function Size(): nat
      reads this
    {
      |tagged| + |notTagged| + |failed|
    }

    /** `era_results[bucket].append(text)`. */
    method Record(e: Entry)
      modifies this
      ensures tagged == old(tagged) + (if e.bucket == TaggedBucket then [e.text] else [])
      ensures notTagged == old(notTagged) + (if e.bucket == NotTaggedBucket then [e.text] else [])
      ensures failed == old(failed) + (if e.bucket == FailedBucket then [e.text] else [])
      ensures Size() == old(Size()) + 1
    {
      match e.bucket
      case TaggedBucket => tagged := tagged + [e.text];
      case NotTaggedBucket => notTagged := notTagged + [e.text];
      case FailedBucket => failed := failed + [e.text];
    }

    /** `results[k].extend(era_results[k])` for the three lists. */
    method Extend(other: Tally)
      modifies this
      ensures tagged == old(tagged) + old(other.tagged)
      ensures notTagged == old(notTagged) + old(other.notTagged)
      ensures failed == old(failed) + old(other.failed)
      ensures Size() == old(Size()) + old(other.Size())
    {
      var t, n, f := other.tagged, other.notTagged, other.failed;
      tagged := tagged + t;
      notTagged := notTagged + n;
      failed := failed + f;
    }
  }

  /** What one task adds to one list. */
  function Appended(o: Option<Entry>, b: Bucket): seq<string> {
    if o.Some? && o.value.bucket == b then [o.value.text] else []
  }

  /** The texts of the entries that went to one list, in order. */
  function Bin(outcomes: seq<Option<Entry>>, b: Bucket): (r: seq<string>)
    ensures |r| <= |outcomes|
    decreases |outcomes|
  {
    if outcomes == [] then []
    else Bin(outcomes[..|outcomes| - 1], b) + Appended(outcomes[|outcomes| - 1], b)
  }

  /** The number of tasks that returned normally. */
  function Completed(outcomes: seq<Option<Entry>>): (r: nat)
    ensures r <= |outcomes|
    decreases |outcomes|
  {
    if outcomes == [] then 0
    else Completed(outcomes[..|outcomes| - 1]) + (if outcomes[|outcomes| - 1].Some? then 1 else 0)
  }

  /** Each task that returns normally lands in exactly one list. */
  lemma {:induction false} BinsPartitionCompleted(outcomes: seq<Option<Entry>>)
    ensures |Bin(outcomes, TaggedBucket)| + |Bin(outcomes, NotTaggedBucket)| + |Bin(outcomes, FailedBucket)| ==
      Completed(outcomes)
    decreases |outcomes|
  {
    if outcomes != [] {
      BinsPartitionCompleted(outcomes[..|outcomes| - 1]);
    }
  }

  /** A task that raises loses nothing but its own entry: with no task
      raising, every task is counted. */
  lemma {:induction false} CompletedAll(outcomes: seq<Option<Entry>>)
    ensures Completed(outcomes) == |outcomes| <==> forall k :: 0 <= k < |outcomes| ==> outcomes[k].Some?
    decreases |outcomes|
  {
    if outcomes != [] {
      var p := outcomes[..|outcomes| - 1];
      CompletedAll(p);
      assert forall k :: 0 <= k < |p| ==> p[k] == outcomes[k];
    }
  }

  /** The entries of the tasks for some rows with links, in row order. */
  function Outcomes(columns: seq<string>, rows: seq<Row>, nameCol: string, linkCol: string,
                    lengthCol: Option<string>, qualityCol: Option<string>, folder: string,
                    attempts: nat -> Attempt): (r: seq<Option<Entry>>)
    requires HasRoles(columns, nameCol, linkCol, lengthCol, qualityCol)
    requires forall k :: 0 <= k < |rows| ==> HasLink(columns, rows[k], linkCol)
    ensures |r| == |rows|
  {
    seq(|rows|, k requires 0 <= k < |rows| =>
      TaskOutcome(columns, rows[k], nameCol, linkCol, lengthCol, qualityCol, folder, attempts(k)))
  }

  /** The entries of the tasks for the filtered rows of an era. */
  function EraOutcomes(columns: seq<string>, rows: seq<Row>, era: string, nameCol: string, linkCol: string,
                       lengthCol: Option<string>, qualityCol: Option<string>, attempts: nat -> Attempt)
    : (r: seq<Option<Entry>>)
    requires HasRoles(columns, nameCol, linkCol, lengthCol, qualityCol)
    ensures |r| == |FilterRows(columns, rows, era, linkCol)|
  {
    Outcomes(columns, FilterRows(columns, rows, era, linkCol), nameCol, linkCol, lengthCol, qualityCol,
             EraFolder(era), attempts)
  }

  /** A task records an entry exactly when its row has a name. */
  lemma TaskRecordsIff(name: Option<string>, length: Option<string>, quality: Option<string>, url: string,
                       folder: string, attempt: Attempt)
    ensures Task(name, length, quality, url, folder, attempt).Some? <==> name.Some?
  {
  }

  /** Every filtered row ends up in one of the three buckets exactly when
      every one of them has a name the task can read: a cell that is
      present, under a name column no other column shares. Any other row
      raises inside its task and is silently dropped. */
  lemma EveryRowRecordedIff(columns: seq<string>, rows: seq<Row>, nameCol: string, linkCol: string,
                            lengthCol: Option<string>, qualityCol: Option<string>, folder: string,
                            attempts: nat -> Attempt)
    requires HasRoles(columns, nameCol, linkCol, lengthCol, qualityCol)
    requires forall k :: 0 <= k < |rows| ==> HasLink(columns, rows[k], linkCol)
    ensures
      var o := Outcomes(columns, rows, nameCol, linkCol, lengthCol, qualityCol, folder, attempts);
      |Bin(o, TaggedBucket)| + |Bin(o, NotTaggedBucket)| + |Bin(o, FailedBucket)| == |rows| <==>
        forall k :: 0 <= k < |rows| ==> Field(columns, rows[k], nameCol).Some?
  {
    var o := Outcomes(columns, rows, nameCol, linkCol, lengthCol, qualityCol, folder, attempts);
    BinsPartitionCompleted(o);
    CompletedAll(o);
    forall k | 0 <= k < |rows| ensures o[k].Some? <==> Field(columns, rows[k], nameCol).Some? {
      assert o[k] == TaskOutcome(columns, rows[k], nameCol, linkCol, lengthCol, qualityCol, folder, attempts(k));
      TaskRecordsIff(Field(columns, rows[k], nameCol), OptionalCell(columns, rows[k], lengthCol),
                     OptionalCell(columns, rows[k], qualityCol), TrackUrl(columns, rows[k], linkCol), folder, attempts(k));
    }
  }

  /** `download_and_tag`: runs one task and records its entry, if any. */
  method DownloadAndTag(columns: seq<string>, row: Row, nameCol: string, linkCol: string,
                        lengthCol: Option<string>, qualityCol: Option<string>,
                        folder: string, attempt: Attempt, eraResults: Tally)
    requires HasRoles(columns, nameCol, linkCol, lengthCol, qualityCol) && HasLink(columns, row, linkCol)
    modifies eraResults
    ensures var o := TaskOutcome(columns, row, nameCol, linkCol, lengthCol, qualityCol, folder, attempt);
      && eraResults.tagged == old(eraResults.tagged) + Appended(o, TaggedBucket)
      && eraResults.notTagged == old(eraResults.notTagged) + Appended(o, NotTaggedBucket)
      && eraResults.failed == old(eraResults.failed) + Appended(o, FailedBucket)
  {
    var o := TaskOutcome(columns, row, nameCol, linkCol, lengthCol, qualityCol, folder, attempt);
    if o.Some? {
      eraResults.Record(o.value);
    }
  }

  lemma BinStep(outcomes: seq<Option<Entry>>, k: nat, b: Bucket)
    requires k < |outcomes|
    ensures Bin(outcomes[..k + 1], b) == Bin(outcomes[..k], b) + Appended(outcomes[k], b)
  {
    assert outcomes[..k + 1][..k] == outcomes[..k];
  }

  /** The executor's tasks, run one after the other into a fresh tally. */
  method RunTasks(columns: seq<string>, rows: seq<Row>, nameCol: string, linkCol: string,
                  lengthCol: Option<string>, qualityCol: Option<string>, folder: string,
                  attempts: nat -> Attempt) returns (eraResults: Tally)
    requires HasRoles(columns, nameCol, linkCol, lengthCol, qualityCol)
    requires forall k :: 0 <= k < |rows| ==> HasLink(columns, rows[k], linkCol)
    ensures fresh(eraResults)
    ensures eraResults.tagged == Bin(Outcomes(columns, rows, nameCol, linkCol, lengthCol, qualityCol, folder, attempts), TaggedBucket)
    ensures eraResults.notTagged == Bin(Outcomes(columns, rows, nameCol, linkCol, lengthCol, qualityCol, folder, attempts), NotTaggedBucket)
    ensures eraResults.failed == Bin(Outcomes(columns, rows, nameCol, linkCol, lengthCol, qualityCol, folder, attempts), FailedBucket)
  {
    ghost var o := Outcomes(columns, rows, nameCol, linkCol, lengthCol, qualityCol, folder, attempts);
    eraResults := new Tally();
    var k := 0;
    while k < |rows|
      invariant k <= |rows|
      invariant eraResults.tagged == Bin(o[..k], TaggedBucket)
      invariant eraResults.notTagged == Bin(o[..k], NotTaggedBucket)
      invariant eraResults.failed == Bin(o[..k], FailedBucket)
    {
      DownloadAndTag(columns, rows[k], nameCol, linkCol, lengthCol, qualityCol, folder, attempts(k), eraResults);
      assert o[k] == TaskOutcome(columns, rows[k], nameCol, linkCol, lengthCol, qualityCol, folder, attempts(k));
      BinStep(o, k, TaggedBucket);
      BinStep(o, k, NotTaggedBucket);
      BinStep(o, k, FailedBucket);
      k := k + 1;
    }
    assert o[..k] == o;
  }

  /** `process_era`: the era's filtered rows through the tasks, then the
      merge of the era's lists onto `results`. */
  method ProcessEra(columns: seq<string>, rows: seq<Row>, era: string, nameCol: string, linkCol: string,
                    lengthCol: Option<string>, qualityCol: Option<string>, attempts: nat -> Attempt,
                    results: Tally)
    requires HasRoles(columns, nameCol, linkCol, lengthCol, qualityCol)
    modifies results
    ensures results.tagged ==
      old(results.tagged) + Bin(EraOutcomes(columns, rows, era, nameCol, linkCol, lengthCol, qualityCol, attempts), TaggedBucket)
    ensures results.notTagged ==
      old(results.notTagged) + Bin(EraOutcomes(columns, rows, era, nameCol, linkCol, lengthCol, qualityCol, attempts), NotTaggedBucket)
    ensures results.failed ==
      old(results.failed) + Bin(EraOutcomes(columns, rows, era, nameCol, linkCol, lengthCol, qualityCol, attempts), FailedBucket)
  {
    var folder := EraFolder(era);
    var filtered := FilterRows(columns, rows, era, linkCol);
    var eraResults := RunTasks(columns, filtered, nameCol, linkCol, lengthCol, qualityCol, folder, attempts);
    results.Extend(eraResults);
  }

  // ---------------------------------------------------------------------------
  // `main`: the prompts and the era selection

  /** A parsed answer (`None` where `int()` raised) the prompt accepts. */
  predicate Accepts(answer: Option<int>, lo: int, hi: int) {
    answer.Some? && lo <= answer.value <= hi
  }

  /** A `while True` prompt over a stream of answers: the first accepted
      answer, or `None` when the answers run out first. */
  method Prompt(answers: seq<Option<int>>, lo: int, hi: int) returns (r: Option<int>, used: nat)
    ensures used <= |answers|
    ensures r.Some? ==> 0 < used && answers[used - 1] == r && lo <= r.value <= hi
    ensures r.None? ==> used == |answers|
    ensures forall j :: 0 <= j < |answers| && (r.None? || j < used - 1) ==> !Accepts(answers[j], lo, hi)
  {
    var i := 0;
    while i < |answers|
      invariant i <= |answers|
      invariant forall j :: 0 <= j < i ==> !Accepts(answers[j], lo, hi)
    {
      if Accepts(answers[i], lo, hi) {
        return answers[i], i + 1;
      }
      i := i + 1;
    }
    return None, i;
  }

  const SheetsChoice := 1
  const FileChoice := 2
  const MinWorkers := 1
  const MaxWorkers := 10

  /** The three prompts of `main`: each returns the first answer in its
      range, having rejected every earlier one, or none when the answers
      run out. */
  method ChooseInputMethod(answers: seq<Option<int>>) returns (r: Option<int>, used: nat)
    ensures used <= |answers|
    ensures r.Some? ==> 0 < used && answers[used - 1] == r
    ensures r.Some? ==> r.value == SheetsChoice || r.value == FileChoice
    ensures r.None? ==> used == |answers|
    ensures forall j :: 0 <= j < |answers| && (r.None? || j < used - 1) ==> !Accepts(answers[j], SheetsChoice, FileChoice)
  {
    r, used := Prompt(answers, SheetsChoice, FileChoice);
  }

  method ChooseWorkers(answers: seq<Option<int>>) returns (r: Option<int>, used: nat)
    ensures used <= |answers|
    ensures r.Some? ==> 0 < used && answers[used - 1] == r
    ensures r.Some? ==> MinWorkers <= r.value <= MaxWorkers
    ensures r.None? ==> used == |answers|
    ensures forall j :: 0 <= j < |answers| && (r.None? || j < used - 1) ==> !Accepts(answers[j], MinWorkers, MaxWorkers)
  {
    r, used := Prompt(answers, MinWorkers, MaxWorkers);
  }

  method ChooseEra(eras: seq<string>, answers: seq<Option<int>>) returns (r: Option<int>, used: nat)
    ensures used <= |answers|
    ensures r.Some? ==> 0 < used && answers[used - 1] == r
    ensures r.Some? ==> 0 <= r.value <= |eras|
    ensures r.None? ==> used == |answers|
    ensures forall j :: 0 <= j < |answers| && (r.None? || j < used - 1) ==> !Accepts(answers[j], 0, |eras|)
  {
    r, used := Prompt(answers, 0, |eras|);
  }

  /** `selected_eras`: all eras for 0, else the one numbered `choice`. */
  function SelectEras(eras: seq<string>, choice: int): (r: seq<string>)
    requires 0 <= choice <= |eras|
    ensures choice == 0 ==> r == eras
    ensures choice > 0 ==> |r| == 1 && r[0] == eras[choice - 1]
  {
    if choice == 0 then eras else [eras[choice - 1]]
  }

  /** The selection only names listed eras, and never one twice when the
      list is free of repeats. */
  lemma SelectionIsListed(eras: seq<string>, choice: int)
    requires 0 <= choice <= |eras|
    ensures forall e :: e in SelectEras(eras, choice) ==> e in eras
    ensures (forall i, j :: 0 <= i < j < |eras| ==> eras[i] != eras[j]) ==>
      forall i, j :: 0 <= i < j < |SelectEras(eras, choice)| ==> SelectEras(eras, choice)[i] != SelectEras(eras, choice)[j]
  {
  }

  /** The results of all selected eras, one era after the other. */
  function AllBins(columns: seq<string>, rows: seq<Row>, eras: seq<string>, nameCol: string, linkCol: string,
                   lengthCol: Option<string>, qualityCol: Option<string>, attempts: string -> nat -> Attempt,
                   b: Bucket): seq<string>
    requires HasRoles(columns, nameCol, linkCol, lengthCol, qualityCol)
    decreases |eras|
  {
    if eras == [] then []
    else
      var last := eras[|eras| - 1];
      AllBins(columns, rows, eras[..|eras| - 1], nameCol, linkCol, lengthCol, qualityCol, attempts, b) +
      Bin(EraOutcomes(columns, rows, last, nameCol, linkCol, lengthCol, qualityCol, attempts(last)), b)
  }

  lemma AllBinsStep(columns: seq<string>, rows: seq<Row>, selected: seq<string>, i: nat, nameCol: string, linkCol: string,
                    lengthCol: Option<string>, qualityCol: Option<string>, attempts: string -> nat -> Attempt, b: Bucket)
    requires HasRoles(columns, nameCol, linkCol, lengthCol, qualityCol) && i < |selected|
    ensures AllBins(columns, rows, selected[..i + 1], nameCol, linkCol, lengthCol, qualityCol, attempts, b) ==
      AllBins(columns, rows, selected[..i], nameCol, linkCol, lengthCol, qualityCol, attempts, b) +
      Bin(EraOutcomes(columns, rows, selected[i], nameCol, linkCol, lengthCol, qualityCol, attempts(selected[i])), b)
  {
    assert selected[..i + 1][..i] == selected[..i];
  }

  /** The selected eras, each through `process_era`, into one `results`. */
  method ProcessEras(columns: seq<string>, rows: seq<Row>, selected: seq<string>, nameCol: string, linkCol: string,
                     lengthCol: Option<string>, qualityCol: Option<string>, attempts: string -> nat -> Attempt)
    returns (results: Tally)
    requires HasRoles(columns, nameCol, linkCol, lengthCol, qualityCol)
    ensures fresh(results)
    ensures results.tagged == AllBins(columns, rows, selected, nameCol, linkCol, lengthCol, qualityCol, attempts, TaggedBucket)
    ensures results.notTagged == AllBins(columns, rows, selected, nameCol, linkCol, lengthCol, qualityCol, attempts, NotTaggedBucket)
    ensures results.failed == AllBins(columns, rows, selected, nameCol, linkCol, lengthCol, qualityCol, attempts, FailedBucket)
  {
    results := new Tally();
    var i := 0;
    while i < |selected|
      invariant i <= |selected| && fresh(results)
      invariant results.tagged == AllBins(columns, rows, selected[..i], nameCol, linkCol, lengthCol, qualityCol, attempts, TaggedBucket)
      invariant results.notTagged == AllBins(columns, rows, selected[..i], nameCol, linkCol, lengthCol, qualityCol, attempts, NotTaggedBucket)
      invariant results.failed == AllBins(columns, rows, selected[..i], nameCol, linkCol, lengthCol, qualityCol, attempts, FailedBucket)
    {
      ProcessEra(columns, rows, selected[i], nameCol, linkCol, lengthCol, qualityCol, attempts(selected[i]), results);
      AllBinsStep(columns, rows, selected, i, nameCol, linkCol, lengthCol, qualityCol, attempts, TaggedBucket);
      AllBinsStep(columns, rows, selected, i, nameCol, linkCol, lengthCol, qualityCol, attempts, NotTaggedBucket);
      AllBinsStep(columns, rows, selected, i, nameCol, linkCol, lengthCol, qualityCol, attempts, FailedBucket);
      i := i + 1;
    }
    assert selected[..i] == selected;
  }

  // ---------------------------------------------------------------------------
  // The CSV path typed at the prompt

  predicate IsQuote(c: char) {
    c == '"' || c == '\''
  }

  /** `csv_path[1:-1].strip()` when the stripped path is wrapped in matching
      quotes, the path itself otherwise. */
  function Unquote(path: string): (r: string)
    ensures r != path ==> |path| > 0 && IsQuote(path[0]) && path[|path| - 1] == path[0]
  {
    if |path| > 0 && IsQuote(path[0]) && path[|path| - 1] == path[0] then
      Strip(if |path| >= 2 then path[1..|path| - 1] else "")
    else path
  }

  /** A path pasted with quotes around it loses them and the spaces inside. */
  lemma UnquoteQuoted(q: char, s: string)
    requires IsQuote(q)
    ensures Unquote([q] + s + [q]) == Strip(s)
  {
    var p := [q] + s + [q];
    assert p[1..|p| - 1] == s;
  }

  /** A path that does not start with a quote is left as it is. */
  lemma UnquotePlain(path: string)
    requires path == [] || !IsQuote(path[0])
    ensures Unquote(path) == path
  {
  }

  // ---------------------------------------------------------------------------
  // From the answers to the manifest

  datatype Arguments = Arguments(file: Option<string>, link: Option<string>)

  /** `parse_input(link=...)` with the stripped URL for choice 1, or
      `parse_input(file=...)` with the stripped, unquoted path for choice 2. */
  function ArgumentsFor(choice: int, typed: string): (r: Arguments)
    requires choice == SheetsChoice || choice == FileChoice
    ensures choice == SheetsChoice ==> r.file.None? && r.link == Some(Strip(typed))
    ensures choice == FileChoice ==> r.link.None? && r.file == Some(Unquote(Strip(typed)))
  {
    if choice == SheetsChoice then Arguments(None, Some(Strip(typed)))
    else Arguments(Some(Unquote(Strip(typed))), None)
  }

  /** A blank answer, or a path that is only a pair of quotes, names no
      input at all. */
  lemma BlankAnswerNamesNoInput(choice: int, typed: string, env: Environment)
    requires choice == SheetsChoice || choice == FileChoice
    requires choice == SheetsChoice ==> Strip(typed) == ""
    requires choice == FileChoice ==> Unquote(Strip(typed)) == ""
    ensures Parse(ArgumentsFor(choice, typed).file, ArgumentsFor(choice, typed).link, env) == Refused(NoInput)
  {
    assert Acquire(ArgumentsFor(choice, typed).file, ArgumentsFor(choice, typed).link, env) == Stopped(NoInput);
  }

  /** `main` recomputes the era list from the manifest; it gets back the
      list `parse_input` returned. */
  lemma RecomputedErasAgree(t: Table)
    requires Resolve(t).Parsed?
    ensures EraColumn in Resolve(t).manifest.table.columns
    ensures Resolve(t).manifest.linkCol in Resolve(t).manifest.table.columns
    ensures EraList(Resolve(t).manifest.table.columns, Resolve(t).manifest.table.rows, Resolve(t).manifest.linkCol) ==
      Resolve(t).manifest.eras
  {
    ParsedManifest(t);
  }
}
