/**
 * The text and parsing helpers of Helpers.cs: the null-safe, case-insensitive
 * comparison EqualsIC, the two TryParse wrappers around a parse handler, and
 * AppendWrap, which appends a message to a StringBuilder as console-width lines.
 *
 * Culture-aware case folding and the concrete parse handlers (double.TryParse,
 * int.TryParse, Enum.TryParse) are functions the caller supplies.
 */
module Helpers {
  import opened Wrappers

  /** Helpers.EqualsIC: false when either string is null, otherwise the supplied case-insensitive comparison. */
  function EqualsIC(self: Option<string>, check: Option<string>, sameIgnoringCase: (string, string) -> bool): (r: bool)
    ensures self.None? || check.None? ==> !r
    ensures self.Some? && check.Some? ==> (r <==> sameIgnoringCase(self.value, check.value))
  {
    self.Some? && check.Some? && sameIgnoringCase(self.value, check.value)
  }

  /** A TryParseHandler: whether the text parsed, and the value it wrote to its out parameter. */
  type Handler<T> = string -> (bool, T)

  /** The struct overload of Helpers.TryParse: whether the handler parsed `sval`, and its out value. */
  function TryParse<T>(sval: string, handler: Handler<T>): (r: (bool, T))
    ensures r.0 == handler(sval).0 && r.1 == handler(sval).1
  {
    handler(sval)
  }

  /**
   * The nullable overload of Helpers.TryParse: the handler's verdict, and the
   * parsed value when it succeeded or null when it did not.
   */
  function TryParseNullable<T>(sval: string, handler: Handler<T>): (r: (bool, Option<T>))
    ensures r.0 == handler(sval).0
    ensures r.0 ==> r.1 == Some(handler(sval).1)
    ensures !r.0 ==> r.1 == None
  {
    var (worked, outval) := handler(sval);
    if worked then (true, Some(outval)) else (false, None)
  }

  /** The two overloads agree: the nullable one holds exactly the value the struct one reports as parsed. */
  lemma TryParseOverloadsAgree<T>(sval: string, handler: Handler<T>)
    ensures TryParseNullable(sval, handler).0 == TryParse(sval, handler).0
    ensures TryParseNullable(sval, handler).1 ==
            if TryParse(sval, handler).0 then Some(TryParse(sval, handler).1) else None
  {
  }

  /** Environment.NewLine, taken as a line feed. */
  const NewLine: string := "\n"

  /** A string of `n` spaces: `new string(' ', n)`. */
  function Spaces(n: nat): (s: string)
    ensures |s| == n && forall k :: 0 <= k < n ==> s[k] == ' '
  {
    seq(n, _ => ' ')
  }

  /** The text accumulated by System.Text.StringBuilder. */
  class StringBuilder {
    var text: string

    constructor ()
      ensures text == ""
    {
      text := "";
    }

    method Append(s: string)
      modifies this
      ensures text == old(text) + s
    {
      text := text + s;
    }

    method AppendLine(s: string)
      modifies this
      ensures text == old(text) + s + NewLine
    {
      text := text + s + NewLine;
    }
  }

  /** The pieces AppendWrap cuts from `m`, starting at index `c`: `w` characters each, the last one shorter or equal. */
  function ChunksFrom(m: string, w: nat, c: nat): seq<string>
    requires w >= 1
    decreases |m| - c
  {
    if c >= |m| then []
    else if c + w >= |m| then [m[c..]]
    else [m[c..c + w]] + ChunksFrom(m, w, c + w)
  }

  function Chunks(m: string, w: nat): seq<string>
    requires w >= 1
  {
    ChunksFrom(m, w, 0)
  }

  function Concat(ss: seq<string>): string {
    if ss == [] then "" else ss[0] + Concat(ss[1..])
  }

  /** Lines made of `chunks`, each ended by a newline and all but the first (when `first`) indented by `offset` spaces. */
  function Layout(chunks: seq<string>, offset: nat, first: bool): string {
    if chunks == [] then ""
    else (if first then "" else Spaces(offset)) + chunks[0] + NewLine + Layout(chunks[1..], offset, false)
  }

  /** What AppendWrap appends: `m` cut into lines of `w` characters, later lines indented by `offset`. */
  function Wrapped(m: string, w: nat, offset: nat): string
    requires w >= 1
  {
    Layout(Chunks(m, w), offset, true)
  }

  /**
   * Helpers.AppendWrap with the console's buffer width as a parameter: cuts `m`
   * into lines of w = width - 1 - offset characters and appends them to `sb`,
   * indenting every line after the first by `offset` spaces.
   */
  method AppendWrap(sb: StringBuilder, offset: nat, m: string, bufferWidth: int) returns (self: StringBuilder)
    requires bufferWidth - 1 - offset >= 1
    modifies sb
    ensures self == sb
    ensures sb.text == old(sb.text) + Wrapped(m, bufferWidth - 1 - offset, offset)
  {
    var w: nat := bufferWidth - 1 - offset;
    var c: nat := 0;
    var l := |m|;
    ghost var target := sb.text + Wrapped(m, w, offset);
    while c < l
      invariant sb.text + Layout(ChunksFrom(m, w, c), offset, c == 0) == target
      decreases l - c
    {
      AppendChunk(sb, m, w, c, offset, target);
      c := c + w;
    }
    self := sb;
  }

  /** One turn of the AppendWrap loop: appends the indent and the chunk at `c` as one line. */
  method AppendChunk(sb: StringBuilder, m: string, w: nat, c: nat, offset: nat, ghost target: string)
    requires w >= 1 && c < |m|
    requires sb.text + Layout(ChunksFrom(m, w, c), offset, c == 0) == target
    modifies sb
    ensures sb.text + Layout(ChunksFrom(m, w, c + w), offset, c + w == 0) == target
  {
    var o := if c > 0 then Spaces(offset) else "";
    var s := if c + w >= |m| then m[c..] else m[c..c + w];
    ghost var before := sb.text;
    ghost var rest := Layout(ChunksFrom(m, w, c + w), offset, c + w == 0);
    LayoutStep(m, w, c, offset);
    sb.Append(o);
    sb.AppendLine(s);
    Regroup(before, o, s, NewLine, rest);
  }

  /** The layout from chunk `c` on: the line of that chunk, then the layout of the rest. */
  lemma LayoutStep(m: string, w: nat, c: nat, offset: nat)
    requires w >= 1 && c < |m|
    ensures Layout(ChunksFrom(m, w, c), offset, c == 0) ==
      (if c > 0 then Spaces(offset) else "") + (if c + w >= |m| then m[c..] else m[c..c + w]) + NewLine
      + Layout(ChunksFrom(m, w, c + w), offset, c + w == 0)
  {
    assert ChunksFrom(m, w, c)[1..] == ChunksFrom(m, w, c + w);
  }

  lemma Regroup(a: string, b: string, c: string, d: string, e: string)
    ensures a + b + c + d + e == a + (b + c + d + e)
  {
  }

  /** The chunks put back together give the text from `c` on. */
  lemma {:induction false} ChunksConcat(m: string, w: nat, c: nat)
    requires w >= 1 && c <= |m|
    ensures Concat(ChunksFrom(m, w, c)) == m[c..]
    decreases |m| - c
  {
    if c < |m| && c + w < |m| {
      ChunksConcat(m, w, c + w);
      assert m[c..] == m[c..c + w] + m[c + w..];
    }
  }

  /** Every chunk but the last has exactly `w` characters; the last has between 1 and `w`. */
  lemma {:induction false} ChunkLengths(m: string, w: nat, c: nat)
    requires w >= 1
    ensures forall i :: 0 <= i < |ChunksFrom(m, w, c)| - 1 ==> |ChunksFrom(m, w, c)[i]| == w
    ensures |ChunksFrom(m, w, c)| > 0 ==> 1 <= |ChunksFrom(m, w, c)[|ChunksFrom(m, w, c)| - 1]| <= w
    decreases |m| - c
  {
    if c < |m| && c + w < |m| {
      ChunkLengths(m, w, c + w);
    }
  }

  /** There are ceil((|m| - c) / w) chunks: enough to hold the text, and one fewer would not be. */
  lemma {:induction false} ChunkCount(m: string, w: nat, c: nat)
    requires w >= 1 && c <= |m|
    ensures |ChunksFrom(m, w, c)| * w >= |m| - c
    ensures |ChunksFrom(m, w, c)| > 0 ==> (|ChunksFrom(m, w, c)| - 1) * w < |m| - c
    ensures |ChunksFrom(m, w, c)| == 0 <==> c == |m|
    decreases |m| - c
  {
    if c < |m| && c + w < |m| {
      ChunkCount(m, w, c + w);
      var n := |ChunksFrom(m, w, c + w)|;
      assert |ChunksFrom(m, w, c)| == n + 1;
      assert (n + 1) * w == n * w + w;
    }
  }

  /** Line `i` of a layout: the indent (none on the first line), the chunk, a newline. */
  function Line(chunks: seq<string>, offset: nat, first: bool, i: nat): string
    requires i < |chunks|
  {
    (if first && i == 0 then "" else Spaces(offset)) + chunks[i] + NewLine
  }

  /** A layout is its lines one after another. */
  lemma {:induction false} LayoutIsLines(chunks: seq<string>, offset: nat, first: bool)
    ensures Layout(chunks, offset, first) == Concat(seq(|chunks|, i requires 0 <= i < |chunks| => Line(chunks, offset, first, i)))
    decreases |chunks|
  {
    var lines := seq(|chunks|, i requires 0 <= i < |chunks| => Line(chunks, offset, first, i));
    if chunks != [] {
      LayoutIsLines(chunks[1..], offset, false);
      var rest := seq(|chunks| - 1, i requires 0 <= i < |chunks| - 1 => Line(chunks[1..], offset, false, i));
      assert lines[1..] == rest;
    }
  }

  /** Wrapping an empty message appends nothing. */
  lemma WrapEmpty(w: nat, offset: nat)
    requires w >= 1
    ensures Wrapped("", w, offset) == ""
  {
  }

  /**
   * The text AppendWrap appends is the chunks of `m`, in order, as lines: the
   * first without indent, every other with exactly `offset` spaces before it.
   */
  lemma WrappedLines(m: string, w: nat, offset: nat)
    requires w >= 1
    ensures var chunks := Chunks(m, w);
      && Concat(chunks) == m
      && |chunks| * w >= |m|
      && (|chunks| > 0 ==> (|chunks| - 1) * w < |m|)
      && Wrapped(m, w, offset) == Concat(seq(|chunks|, i requires 0 <= i < |chunks| => Line(chunks, offset, true, i)))
  {
    ChunksConcat(m, w, 0);
    ChunkCount(m, w, 0);
    LayoutIsLines(Chunks(m, w), offset, true);
  }
}
