/** `_add_frontmatter`: the `---`-delimited `key: value` header that precedes
    every converted document body. */
module Frontmatter {
  import opened Strings

  /** The Python values that occur in the converter's metadata dictionaries. */
  datatype Value =
    | Str(s: string)
    | Int(i: int)
    | Bool(b: bool)
    | Null
    | List(items: seq<Value>)

  /** A metadata dictionary: its entries in insertion order. */
  type Metadata = seq<(string, Value)>

  /** Text of one value. Strings and lists go through `json.dumps`, given here
      as the opaque `quote`; other values use Python's `str`, which writes
      booleans as `True` / `False` and `None` as `None`. */
  function RenderValue(v: Value, quote: Value -> string): string {
    match v
    case Str(_) => quote(v)
    case List(_) => quote(v)
    case Int(i) => IntToString(i)
    case Bool(b) => if b then "True" else "False"
    case Null => "None"
  }

  /** The `key: value` line of one metadata entry. */
  function EntryLine(entry: (string, Value), quote: Value -> string): string {
    entry.0 + ": " + RenderValue(entry.1, quote)
  }

  /** The lines after the metadata entries, `now` being the conversion time. */
  function Trailer(now: string): seq<string> {
    ["converted_date: " + now, "status: converted", "needs_review: true", "---"]
  }

  /** All header lines: an opening `---`, one line per entry in order, then
      the trailer. */
  function HeaderLines(metadata: Metadata, now: string, quote: Value -> string): (r: seq<string>)
    ensures |r| == |metadata| + 5
    ensures r[0] == "---" && r[|r| - 1] == "---"
    ensures forall k :: 0 <= k < |metadata| ==> r[k + 1] == EntryLine(metadata[k], quote)
    ensures r[|metadata| + 1..] == Trailer(now)
  {
    ["---"] + seq(|metadata|, k requires 0 <= k < |metadata| => EntryLine(metadata[k], quote)) + Trailer(now)
  }

  /** `_add_frontmatter(content, metadata)`: the header lines joined by
      newlines, with a final empty line so that the closing `---` is followed
      by a newline too, then the body. The result is every header line
      terminated by a newline followed by the body unchanged; in particular it
      starts with `---` and a newline, and the body is an exact suffix. */
  function AddFrontmatter(content: string, metadata: Metadata, now: string, quote: Value -> string): (r: string)
    ensures r == Terminated(HeaderLines(metadata, now, quote), "\n") + content
    ensures |r| >= |content| && r[|r| - |content|..] == content
    ensures |r| >= 4 && r[..4] == "---\n"
  {
    var lines := HeaderLines(metadata, now, quote);
    JoinWithEmptyLast(lines, "\n");
    OpeningLine(lines);
    var r := Join(lines + [""], "\n") + content;
    assert r[..4] == Terminated(lines, "\n")[..4];
    r
  }

  lemma OpeningLine(lines: seq<string>)
    requires |lines| >= 1 && lines[0] == "---"
    ensures |Terminated(lines, "\n")| >= 4 && Terminated(lines, "\n")[..4] == "---\n"
  {
    assert Terminated(lines, "\n") == "---\n" + Terminated(lines[1..], "\n");
  }

  /** When no entry line and not the conversion time contains a line break,
      the header block splits back into exactly its header lines (and an empty
      remainder), so each metadata entry occupies one line of its own. */
  lemma HeaderSplitsIntoLines(metadata: Metadata, now: string, quote: Value -> string)
    requires forall k :: 0 <= k < |metadata| ==> '\n' !in EntryLine(metadata[k], quote)
    requires '\n' !in now
    ensures Split(Terminated(HeaderLines(metadata, now, quote), "\n"), '\n') == HeaderLines(metadata, now, quote) + [""]
  {
    var lines := HeaderLines(metadata, now, quote);
    JoinWithEmptyLast(lines, "\n");
    assert "\n" == ['\n'];
    forall k | 0 <= k < |lines + [""]| ensures '\n' !in (lines + [""])[k] {
      if 1 <= k <= |metadata| {
        assert lines[k] == EntryLine(metadata[k - 1], quote);
      } else if |metadata| + 1 <= k < |lines| {
        assert lines[k] == Trailer(now)[k - |metadata| - 1];
      }
    }
    SplitJoin(lines + [""], '\n');
  }
}
