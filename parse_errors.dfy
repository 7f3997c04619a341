/** The errors `parse_input` reports and the messages it reports them with. */
module ParseErrors {
  import opened Text

  datatype ParseError =
    | FileNotFound
    | NoHeaderRow
    | Unparsable(reason: string)
    | DownloadFailed
    | NoInput
    | MissingColumns(available: seq<string>)
    | NoEras

  /** `'name'`, as Python's `repr` writes a plain string. */
  function Quoted(c: string): string {
    "'" + c + "'"
  }

  /** The items of `str(list(columns))`, separated by `, `. */
  function QuotedItems(items: seq<string>): string
    decreases |items|
  {
    if items == [] then ""
    else if |items| == 1 then Quoted(items[0])
    else Quoted(items[0]) + ", " + QuotedItems(items[1..])
  }

  /** `str(list(columns))`. */
  function ListRepr(items: seq<string>): string {
    "[" + QuotedItems(items) + "]"
  }

  const ParseFailurePrefix := "Failed to parse CSV: "
  const MissingColumnsPrefix := "Could not find required columns. Available columns: "

  /** The message `parse_input` returns beside `None`. */
  function Message(e: ParseError): string {
    match e
    case FileNotFound => "File not found."
    case NoHeaderRow => "Could not find a valid header row in the CSV file."
    case Unparsable(reason) => ParseFailurePrefix + reason
    case DownloadFailed => "Failed to download spreadsheet. Please check the link."
    case NoInput => "No file or link provided."
    case MissingColumns(available) => MissingColumnsPrefix + ListRepr(available)
    case NoEras => "No eras found in the file."
  }

  /** The reader's exception text follows a fixed prefix, unchanged, so two
      different reasons give two different messages. */
  lemma ParseFailureKeepsReason(reason: string)
    ensures |Message(Unparsable(reason))| == |ParseFailurePrefix| + |reason|
    ensures Message(Unparsable(reason))[..|ParseFailurePrefix|] == ParseFailurePrefix
    ensures Message(Unparsable(reason))[|ParseFailurePrefix|..] == reason
  {
  }

  lemma OccursInRight(a: string, b: string, p: string, i: nat)
    requires OccursAt(b, p, i)
    ensures OccursAt(a + b, p, |a| + i)
  {
    assert (a + b)[|a| + i..|a| + i + |p|] == b[i..i + |p|];
  }

  lemma OccursInLeft(a: string, b: string, p: string, i: nat)
    requires OccursAt(a, p, i)
    ensures OccursAt(a + b, p, i)
  {
    assert (a + b)[i..i + |p|] == a[i..i + |p|];
  }

  /** Each item appears, quoted, in the joined list. */
  lemma {:induction false} QuotedItemsNameEach(items: seq<string>)
    ensures forall c :: c in items ==> exists i: nat :: OccursAt(QuotedItems(items), Quoted(c), i)
    decreases |items|
  {
    if |items| == 1 {
      assert OccursAt(QuotedItems(items), Quoted(items[0]), 0);
    } else if |items| > 1 {
      var head := Quoted(items[0]) + ", ";
      var rest := QuotedItems(items[1..]);
      assert QuotedItems(items) == Quoted(items[0]) + (", " + rest);
      QuotedItemsNameEach(items[1..]);
      forall c | c in items ensures exists i: nat :: OccursAt(QuotedItems(items), Quoted(c), i) {
        if c == items[0] {
          assert Quoted(items[0]) == Quoted(items[0]) + "";
          OccursInLeft(Quoted(items[0]), ", " + rest, Quoted(c), 0);
        } else {
          assert c in items[1..];
          var i: nat :| OccursAt(rest, Quoted(c), i);
          assert QuotedItems(items) == head + rest;
          OccursInRight(head, rest, Quoted(c), i);
        }
      }
    }
  }

  /** The missing-columns message names every column it lists, each quoted. */
  lemma MissingColumnsNamesEach(available: seq<string>)
    ensures Message(MissingColumns(available))[..|MissingColumnsPrefix|] == MissingColumnsPrefix
    ensures forall c :: c in available ==>
      exists i: nat :: OccursAt(Message(MissingColumns(available)), Quoted(c), i)
  {
    var items := QuotedItems(available);
    QuotedItemsNameEach(available);
    var left := MissingColumnsPrefix + "[";
    assert Message(MissingColumns(available)) == left + (items + "]");
    forall c | c in available
      ensures exists i: nat :: OccursAt(Message(MissingColumns(available)), Quoted(c), i)
    {
      var i: nat :| OccursAt(items, Quoted(c), i);
      OccursInLeft(items, "]", Quoted(c), i);
      OccursInRight(left, items + "]", Quoted(c), i);
    }
  }
}
