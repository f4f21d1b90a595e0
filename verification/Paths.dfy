/** Virtual paths: splitting, canonical form, and why two spellings of a file
    share one lock key. */
module Paths {
  import opened Common

  /** A path once parsed: its non-empty components, outermost first. */
  type Path = seq<string>

  /** Python's `text.split(sep)`: never empty, `""` splits into `[""]`. */
  function Split(text: string, sep: char): (r: seq<string>)
    ensures |r| > 0
    ensures forall i :: 0 <= i < |r| ==> sep !in r[i]
  {
    if text == "" then [""]
    else
      var rest := Split(text[1..], sep);
      if text[0] == sep then [""] + rest else [[text[0]] + rest[0]] + rest[1..]
  }

  /** Python's `sep.join(parts)`. */
  function Join(parts: seq<string>, sep: char): string {
    if parts == [] then ""
    else if |parts| == 1 then parts[0]
    else parts[0] + [sep] + Join(parts[1..], sep)
  }

  function StripLeft(text: string): string {
    if text != "" && text[0] == '/' then StripLeft(text[1..]) else text
  }

  function StripRight(text: string): string {
    if text != "" && text[|text| - 1] == '/' then StripRight(text[..|text| - 1]) else text
  }

  function NonEmpty(parts: seq<string>): seq<string> {
    if parts == [] then []
    else if parts[0] == "" then NonEmpty(parts[1..])
    else [parts[0]] + NonEmpty(parts[1..])
  }

  /** `ControlTree._parts`: rejects `..`, drops empty components. */
  function Parts(text: string): Result<Path> {
    if ".." in Split(text, '/') then Err(InvalidPath)
    else Ok(NonEmpty(Split(StripRight(StripLeft(text)), '/')))
  }

  /** `ControlTree._canonical_path` of an already parsed path. */
  function Canonical(path: Path): string {
    "/" + Join(path, '/')
  }

  /** A component that `Parts` can produce. */
  predicate CleanName(name: string) {
    name != "" && '/' !in name && name != ".."
  }

  predicate Clean(path: Path) {
    forall i :: 0 <= i < |path| ==> CleanName(path[i])
  }

  lemma {:induction false} SplitAtSeparator(head: string, tail: string, sep: char)
    requires sep !in head
    ensures Split(head + [sep] + tail, sep) == [head] + Split(tail, sep)
  {
    var text := head + [sep] + tail;
    if head == "" {
      assert text[1..] == tail;
    } else {
      assert text[1..] == head[1..] + [sep] + tail;
      SplitAtSeparator(head[1..], tail, sep);
      assert head == [head[0]] + head[1..];
    }
  }

  lemma {:induction false} SplitWhole(text: string, sep: char)
    requires sep !in text
    ensures Split(text, sep) == [text]
  {
    if text != "" {
      SplitWhole(text[1..], sep);
      assert text == [text[0]] + text[1..];
    }
  }

  /** Splitting undoes joining when no part holds the separator. */
  lemma {:induction false} SplitJoin(parts: seq<string>, sep: char)
    requires parts != []
    requires forall i :: 0 <= i < |parts| ==> sep !in parts[i]
    ensures Split(Join(parts, sep), sep) == parts
  {
    if |parts| == 1 {
      SplitWhole(parts[0], sep);
    } else {
      SplitJoin(parts[1..], sep);
      SplitAtSeparator(parts[0], Join(parts[1..], sep), sep);
    }
  }

  /** Joining undoes splitting on every text. */
  lemma {:induction false} JoinSplit(text: string, sep: char)
    ensures Join(Split(text, sep), sep) == text
  {
    if text != "" {
      JoinSplit(text[1..], sep);
      var rest := Split(text[1..], sep);
      if text[0] == sep {
        assert ([""] + rest)[1..] == rest;
      } else {
        var parts := [[text[0]] + rest[0]] + rest[1..];
        assert parts[1..] == rest[1..];
        if |rest| > 1 {
          assert Join(rest, sep) == rest[0] + [sep] + Join(rest[1..], sep);
        }
      }
      assert text == [text[0]] + text[1..];
    }
  }

  lemma {:induction false} NonEmptyOfClean(parts: seq<string>)
    requires forall i :: 0 <= i < |parts| ==> parts[i] != ""
    ensures NonEmpty(parts) == parts
  {
    if parts != [] {
      NonEmptyOfClean(parts[1..]);
    }
  }

  lemma {:induction false} NonEmptyMembers(parts: seq<string>)
    ensures forall x :: x in NonEmpty(parts) <==> x in parts && x != ""
  {
    if parts != [] {
      NonEmptyMembers(parts[1..]);
    }
  }

  lemma {:induction false} NonEmptyConcat(xs: seq<string>, ys: seq<string>)
    ensures NonEmpty(xs + ys) == NonEmpty(xs) + NonEmpty(ys)
  {
    if xs == [] {
      assert xs + ys == ys;
    } else {
      assert (xs + ys)[1..] == xs[1..] + ys;
      NonEmptyConcat(xs[1..], ys);
    }
  }

  lemma {:induction false} SplitSnoc(text: string, sep: char)
    ensures Split(text + [sep], sep) == Split(text, sep) + [""]
  {
    if text == "" {
      assert text + [sep] == [sep];
      assert [sep][1..] == "";
    } else {
      assert (text + [sep])[1..] == text[1..] + [sep];
      SplitSnoc(text[1..], sep);
    }
  }

  lemma {:induction false} StripLeftKeepsParts(text: string)
    ensures NonEmpty(Split(StripLeft(text), '/')) == NonEmpty(Split(text, '/'))
  {
    if text != "" && text[0] == '/' {
      StripLeftKeepsParts(text[1..]);
      assert ([""] + Split(text[1..], '/'))[1..] == Split(text[1..], '/');
    }
  }

  lemma {:induction false} StripRightKeepsParts(text: string)
    ensures NonEmpty(Split(StripRight(text), '/')) == NonEmpty(Split(text, '/'))
  {
    if text != "" && text[|text| - 1] == '/' {
      var shorter := text[..|text| - 1];
      StripRightKeepsParts(shorter);
      assert text == shorter + ['/'];
      SplitSnoc(shorter, '/');
      NonEmptyConcat(Split(shorter, '/'), [""]);
    }
  }

  /** The `strip` in `_parts` never changes its result. */
  lemma {:induction false} PartsIsFilteredSplit(text: string)
    requires Parts(text).Ok?
    ensures Parts(text).value == NonEmpty(Split(text, '/'))
    ensures Clean(Parts(text).value)
  {
    StripLeftKeepsParts(text);
    StripRightKeepsParts(StripLeft(text));
    var parts := Parts(text).value;
    NonEmptyMembers(Split(text, '/'));
    forall i | 0 <= i < |parts| ensures CleanName(parts[i]) {
      assert parts[i] in parts;
    }
  }

  /** Parsing the canonical spelling gives the path back. */
  lemma {:induction false} PartsOfCanonical(path: Path)
    requires Clean(path)
    ensures Parts(Canonical(path)) == Ok(path)
  {
    var text := Canonical(path);
    if path == [] {
      assert text == "/";
      assert Split("/", '/') == ["", ""] by {
        assert "/"[1..] == "";
      }
      assert StripLeft("/") == "" by {
        assert "/"[1..] == "";
      }
    } else {
      assert text == "" + ['/'] + Join(path, '/');
      SplitAtSeparator("", Join(path, '/'), '/');
      SplitJoin(path, '/');
      assert Split(text, '/') == [""] + path;
      assert ".." !in Split(text, '/');
      NonEmptyOfClean(path);
      assert ([""] + path)[1..] == path;
      PartsIsFilteredSplit(text);
    }
  }

  /** The lock and reservation tables may be indexed by the parsed path instead of
      the canonical text: the two keys identify the same files. */
  lemma {:induction false} CanonicalKeyIsThePath(a: string, b: string)
    requires Parts(a).Ok? && Parts(b).Ok?
    ensures Canonical(Parts(a).value) == Canonical(Parts(b).value) <==> Parts(a).value == Parts(b).value
    ensures Parts(Canonical(Parts(a).value)) == Parts(a)
  {
    PartsIsFilteredSplit(a);
    PartsIsFilteredSplit(b);
    PartsOfCanonical(Parts(a).value);
    PartsOfCanonical(Parts(b).value);
  }

  /** The pieces of a text between its separators. */
  ghost predicate ArePieces(pieces: seq<string>, text: string, sep: char) {
    pieces != [] && (forall i :: 0 <= i < |pieces| ==> sep !in pieces[i]) && Join(pieces, sep) == text
  }

  /** A text is refused for a component `..`, and for nothing else; otherwise the path is its
      components in order, without the empty ones. */
  lemma {:induction false} PartsExactly(text: string, pieces: seq<string>)
    requires ArePieces(pieces, text, '/')
    ensures Parts(text) == if ".." in pieces then Err(InvalidPath) else Ok(NonEmpty(pieces))
  {
    SplitJoin(pieces, '/');
    if ".." !in pieces {
      PartsIsFilteredSplit(text);
    }
  }
}
