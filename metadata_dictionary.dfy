/**
 * The textproto-like rendering of a metadata dictionary: an ordered dictionary
 * with a field name, printed as `field_name {`, one indented line per entry (a
 * nested dictionary printed as its own indented block) and a closing brace.
 */
module MetadataDictionaries {
  import opened Strings

  /**
   * An entry's value: a leaf, kept as its Python `str()` form, or a nested
   * dictionary.
   */
  datatype Item = Leaf(text: string) | Nested(dict: MetadataDictionary)

  /** A MetadataDictionary: its field name and its entries in insertion order. */
  datatype MetadataDictionary = MetadataDictionary(fieldName: string, entries: seq<(string, Item)>)

  /** `n` spaces, or none when `n` is not positive. */
  function Spaces(n: int): (s: string)
    ensures |s| == if n <= 0 then 0 else n
    ensures forall k :: 0 <= k < |s| ==> s[k] == ' '
  {
    if n <= 0 then "" else Spaces(n - 1) + " "
  }

  /**
   * Python's `" " * width * times`: the string is repeated `width` times and the
   * result `times` times, so a non-positive factor on either side gives "".
   */
  function Indent(width: int, times: int): (s: string)
    ensures |s| == if width <= 0 || times <= 0 then 0 else width * times
    ensures forall k :: 0 <= k < |s| ==> s[k] == ' '
  {
    if width <= 0 || times <= 0 then "" else Spaces(width * times)
  }

  /** `__init__(field_name)`: a dictionary with the given field name and no entries. */
  function New(fieldName: string): (d: MetadataDictionary)
    ensures d.fieldName == fieldName && |d.entries| == 0
    ensures Rendered(d, d.entries, 2, 1) == fieldName + " {\n}\n"
  {
    MetadataDictionary(fieldName, [])
  }

  /** What `d._as_string(items, width, depth)` returns. */
  function Rendered(d: MetadataDictionary, items: seq<(string, Item)>, width: int, depth: int): string
    decreases items, 2
  {
    d.fieldName + " {\n" + EntriesText(items, width, depth) + Indent(width, depth - 1) + "}\n"
  }

  /** The text the loop appends for `items`, one entry after the other. */
  function EntriesText(items: seq<(string, Item)>, width: int, depth: int): string
    decreases items, 1
  {
    if items == [] then ""
    else EntriesText(items[..|items| - 1], width, depth) + EntryText(items[|items| - 1], width, depth)
  }

  /** The text one entry contributes. */
  function EntryText(entry: (string, Item), width: int, depth: int): string
    decreases entry, 0
  {
    match entry.1
    case Leaf(text) => Indent(width, depth) + entry.0 + ": " + text + "\n"
    case Nested(d) => Indent(width, depth) + Rendered(d, d.entries, width, depth + 1)
  }

  /** `_as_string(dict_items, width, depth)`. */
  method AsString(d: MetadataDictionary, items: seq<(string, Item)>, width: int, depth: int) returns (s: string)
    decreases items, 2
    ensures s == Rendered(d, items, width, depth)
    ensures |s| >= |d.fieldName| + 3 && s[..|d.fieldName| + 3] == d.fieldName + " {\n"
    ensures |s| >= |Indent(width, depth - 1)| + 2
    ensures s[|s| - |Indent(width, depth - 1)| - 2..] == Indent(width, depth - 1) + "}\n"
  {
    s := d.fieldName + " {\n";
    for i := 0 to |items|
      invariant s == d.fieldName + " {\n" + EntriesText(items[..i], width, depth)
    {
      var line := EntryString(items[i], width, depth);
      assert items[..i + 1][..i] == items[..i];
      s := s + line;
    }
    assert items[..|items|] == items;
    s := s + Indent(width, depth - 1) + "}\n";
  }

  /** One pass of the loop body of `_as_string`: the text for one entry. */
  method EntryString(entry: (string, Item), width: int, depth: int) returns (s: string)
    decreases entry, 1
    ensures s == EntryText(entry, width, depth)
    ensures entry.1.Leaf? ==> s == Indent(width, depth) + entry.0 + ": " + entry.1.text + "\n"
    ensures entry.1.Nested? ==>
      var header := Indent(width, depth) + entry.1.dict.fieldName + " {\n";
      |s| >= |header| && s[..|header|] == header
  {
    var (key, value) := entry;
    if !value.Nested? {
      s := Indent(width, depth) + key + ": " + value.text + "\n";
    } else {
      var inner := AsString(value.dict, value.dict.entries, width, depth + 1);
      s := Indent(width, depth) + inner;
    }
  }

  /** `__repr__()`: the whole dictionary at width 2 and depth 1. */
  method Repr(d: MetadataDictionary) returns (s: string)
    ensures s == Rendered(d, d.entries, 2, 1)
    ensures |s| >= 3 && s[|s| - 3..] == "\n}\n"
  {
    s := AsString(d, d.entries, 2, 1);
    EntriesEndLine(d.entries, 2, 1);
    var body := EntriesText(d.entries, 2, 1);
    assert s == (d.fieldName + " {") + ("\n" + body) + "}\n";
  }

  /** Every entry's text ends a line, so the entries' text is empty or ends with a newline. */
  lemma EntriesEndLine(items: seq<(string, Item)>, width: int, depth: int)
    ensures var t := "\n" + EntriesText(items, width, depth); t[|t| - 1] == '\n'
  {
    if items != [] {
      var last := items[|items| - 1];
      match last.1
      case Leaf(_) =>
      case Nested(nd) =>
        var r := Rendered(nd, nd.entries, width, depth + 1);
        assert r[|r| - 1] == '\n';
    }
  }

  /** Rendering follows insertion order: the text for `a + b` is that for `a`, then that for `b`. */
  lemma {:induction false} EntriesTextAppend(a: seq<(string, Item)>, b: seq<(string, Item)>, width: int, depth: int)
    decreases |b|
    ensures EntriesText(a + b, width, depth) == EntriesText(a, width, depth) + EntriesText(b, width, depth)
  {
    if b == [] {
      assert a + b == a;
    } else {
      var n := |b| - 1;
      assert (a + b)[..|a + b| - 1] == a + b[..n];
      assert (a + b)[|a + b| - 1] == b[n];
      EntriesTextAppend(a, b[..n], width, depth);
    }
  }

  /** The number of nested dictionaries anywhere inside `items`. */
  function DictCount(items: seq<(string, Item)>): nat
    decreases items, 1
  {
    if items == [] then 0 else DictCount(items[..|items| - 1]) + EntryDictCount(items[|items| - 1])
  }

  function EntryDictCount(entry: (string, Item)): nat
    decreases entry, 0
  {
    match entry.1
    case Leaf(_) => 0
    case Nested(d) => 1 + DictCount(d.entries)
  }

  /** The number of leaf values anywhere inside `items`. */
  function LeafCount(items: seq<(string, Item)>): nat
    decreases items, 1
  {
    if items == [] then 0 else LeafCount(items[..|items| - 1]) + EntryLeafCount(items[|items| - 1])
  }

  function EntryLeafCount(entry: (string, Item)): nat
    decreases entry, 0
  {
    match entry.1
    case Leaf(_) => 1
    case Nested(d) => LeafCount(d.entries)
  }

  /** No field name, key or leaf text inside `items` contains `c`. */
  predicate FreeOf(c: char, items: seq<(string, Item)>)
    decreases items, 1
  {
    items != [] ==> FreeOf(c, items[..|items| - 1]) && EntryFreeOf(c, items[|items| - 1])
  }

  predicate EntryFreeOf(c: char, entry: (string, Item))
    decreases entry, 0
  {
    c !in entry.0 &&
    match entry.1
    case Leaf(text) => c !in text
    case Nested(d) => c !in d.fieldName && FreeOf(c, d.entries)
  }

  lemma NoneInIndent(c: char, width: int, times: int)
    requires c != ' '
    ensures Occurrences(c, Indent(width, times)) == 0
  {
    var s := Indent(width, times);
    assert forall k :: 0 <= k < |s| ==> s[k] != c;
    OccurrencesAbsent(c, s);
  }

  /** The characters a rendering is checked for: braces and newlines. */
  predicate Structural(c: char)
  {
    c == '{' || c == '}' || c == '\n'
  }

  /**
   * How often structural character `c` occurs in the text of `dicts` nested
   * dictionaries and `leaves` leaf lines: each dictionary has one brace of each
   * kind and two newlines (header and closer), each leaf line one newline.
   */
  function Marks(c: char, dicts: nat, leaves: nat): nat
  {
    if c == '\n' then 2 * dicts + leaves else dicts
  }

  /** The counts of the fixed pieces of text the renderer emits. */
  lemma LiteralOccurrences(c: char)
    requires Structural(c)
    ensures Occurrences(c, " {\n") == if c == '}' then 0 else 1
    ensures Occurrences(c, "}\n") == if c == '{' then 0 else 1
    ensures Occurrences(c, ": ") == 0
    ensures Occurrences(c, "\n") == if c == '\n' then 1 else 0
  {
    OccurrencesSingle(c, ' ');
    OccurrencesSingle(c, '{');
    OccurrencesSingle(c, '}');
    OccurrencesSingle(c, ':');
    OccurrencesSingle(c, '\n');
    assert " {\n" == [' '] + ['{'] + ['\n'];
    OccurrencesAppend(c, [' '], ['{']);
    OccurrencesAppend(c, [' '] + ['{'], ['\n']);
    assert "}\n" == ['}'] + ['\n'];
    OccurrencesAppend(c, ['}'], ['\n']);
    assert ": " == [':'] + [' '];
    OccurrencesAppend(c, [':'], [' ']);
    assert "\n" == ['\n'];
  }

  /**
   * Counting a brace or newline that the names, keys and leaf texts never use:
   * every dictionary contributes its header ` {\n` and its closer `}\n`, and
   * every leaf one line ending in `\n`, whatever the nesting.
   */
  lemma {:induction false} RenderedOccurrences(c: char, d: MetadataDictionary, items: seq<(string, Item)>, width: int, depth: int)
    requires Structural(c)
    requires c !in d.fieldName && FreeOf(c, items)
    decreases items, 2
    ensures Occurrences(c, Rendered(d, items, width, depth)) == Marks(c, 1 + DictCount(items), LeafCount(items))
  {
    var body := EntriesText(items, width, depth);
    var closer := Indent(width, depth - 1);
    assert Rendered(d, items, width, depth) == d.fieldName + " {\n" + body + closer + "}\n";
    OccurrencesOfFive(c, d.fieldName, " {\n", body, closer, "}\n");
    EntriesOccurrences(c, items, width, depth);
    NoneInIndent(c, width, depth - 1);
    OccurrencesAbsent(c, d.fieldName);
    LiteralOccurrences(c);
    MarksOfOneMoreDict(c, DictCount(items), LeafCount(items));
  }

  /** One more dictionary adds one header (` {\n`) and one closer (`}\n`). */
  lemma MarksOfOneMoreDict(c: char, dicts: nat, leaves: nat)
    requires Structural(c)
    ensures Marks(c, 1 + dicts, leaves) ==
      (if c == '}' then 0 else 1) + Marks(c, dicts, leaves) + (if c == '{' then 0 else 1)
  {
  }

  lemma {:induction false} EntriesOccurrences(c: char, items: seq<(string, Item)>, width: int, depth: int)
    requires Structural(c)
    requires FreeOf(c, items)
    decreases items, 1
    ensures Occurrences(c, EntriesText(items, width, depth)) == Marks(c, DictCount(items), LeafCount(items))
  {
    if items != [] {
      var n := |items| - 1;
      EntriesOccurrences(c, items[..n], width, depth);
      EntryOccurrences(c, items[n], width, depth);
      OccurrencesAppend(c, EntriesText(items[..n], width, depth), EntryText(items[n], width, depth));
    }
  }

  lemma {:induction false} EntryOccurrences(c: char, entry: (string, Item), width: int, depth: int)
    requires Structural(c)
    requires EntryFreeOf(c, entry)
    decreases entry, 0
    ensures Occurrences(c, EntryText(entry, width, depth)) == Marks(c, EntryDictCount(entry), EntryLeafCount(entry))
  {
    var indent := Indent(width, depth);
    NoneInIndent(c, width, depth);
    match entry.1
    case Leaf(text) =>
      assert EntryText(entry, width, depth) == indent + entry.0 + ": " + text + "\n";
      LeafLineOccurrences(c, indent, entry.0, text);
    case Nested(nd) =>
      var r := Rendered(nd, nd.entries, width, depth + 1);
      assert EntryText(entry, width, depth) == indent + r;
      RenderedOccurrences(c, nd, nd.entries, width, depth + 1);
      OccurrencesAppend(c, indent, r);
      assert EntryDictCount(entry) == 1 + DictCount(nd.entries);
      assert EntryLeafCount(entry) == LeafCount(nd.entries);
  }

  /** A leaf line holds one newline and no braces. */
  lemma LeafLineOccurrences(c: char, indent: string, key: string, text: string)
    requires Structural(c)
    requires Occurrences(c, indent) == 0 && c !in key && c !in text
    ensures Occurrences(c, indent + key + ": " + text + "\n") == if c == '\n' then 1 else 0
  {
    OccurrencesAbsent(c, key);
    OccurrencesAbsent(c, text);
    LiteralOccurrences(c);
    OccurrencesOfFive(c, indent, key, ": ", text, "\n");
  }

  /**
   * When names, keys and leaf texts use no braces or newlines, the rendering's
   * braces balance, one pair per dictionary, and it has two lines per dictionary
   * (header and closer) and one per leaf.
   */
  lemma BracesBalance(d: MetadataDictionary, width: int, depth: int)
    requires '{' !in d.fieldName && FreeOf('{', d.entries)
    requires '}' !in d.fieldName && FreeOf('}', d.entries)
    requires '\n' !in d.fieldName && FreeOf('\n', d.entries)
    ensures Occurrences('{', Rendered(d, d.entries, width, depth)) == 1 + DictCount(d.entries)
    ensures Occurrences('}', Rendered(d, d.entries, width, depth)) == 1 + DictCount(d.entries)
    ensures Occurrences('\n', Rendered(d, d.entries, width, depth)) == 2 * (1 + DictCount(d.entries)) + LeafCount(d.entries)
  {
    var r := Rendered(d, d.entries, width, depth);
    var dicts, leaves := DictCount(d.entries), LeafCount(d.entries);
    RenderedOccurrences('{', d, d.entries, width, depth);
    assert Occurrences('{', r) == Marks('{', 1 + dicts, leaves);
    RenderedOccurrences('}', d, d.entries, width, depth);
    assert Occurrences('}', r) == Marks('}', 1 + dicts, leaves);
    RenderedOccurrences('\n', d, d.entries, width, depth);
    assert Occurrences('\n', r) == Marks('\n', 1 + dicts, leaves);
  }
}
