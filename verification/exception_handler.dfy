/**
 The exception formatter: a fixed header line built from the event's fields,
 followed, when the event carries a stack trace, by a six-line block per frame.
 */
module ExceptionHandler {
  import opened Strings
  import opened Values
  import opened LogEvent

  /** The formatter's only state: the date format applied to a `DateTime` timestamp. */
  datatype Formatter = Formatter(dateTimeFormat: string)

  /** `getDateTimeFormat`. */
  function GetDateTimeFormat(h: Formatter): string {
    h.dateTimeFormat
  }

  /** `setDateTimeFormat`: stores the string conversion of its argument and nothing else. */
  function SetDateTimeFormat(h: Formatter, dateTimeFormat: Value): (h': Formatter)
    ensures GetDateTimeFormat(h') == ToStr(dateTimeFormat)
  {
    Formatter(ToStr(dateTimeFormat))
  }

  /** Setting a format and reading it back gives that format. */
  lemma SetThenGet(h: Formatter, f: string)
    ensures GetDateTimeFormat(SetDateTimeFormat(h, Str(f))) == f
  {
  }

  /** Only the last of two settings is remembered. */
  lemma LastSettingWins(h: Formatter, f: Value, g: Value)
    ensures SetDateTimeFormat(SetDateTimeFormat(h, f), g) == SetDateTimeFormat(h, g)
  {
  }

  /**
   PHP's loose `$v == $s` for a string `s` that is neither empty, "0" nor
   numeric, as `switch` applies it: a string or a printable object compares
   as text, `true` equals any such string, and nothing else does.
   */
  predicate LooseEqualsWord(v: Value, s: string)
    requires s != "" && s != "0"
  {
    match v
    case Str(t) => t == s
    case Obj(printable, t) => printable && t == s
    case Bool(b) => b
    case _ => false
  }

  /** `getType`: "::" reads "static", "->" reads "method", and anything else is returned as it is. */
  function GetType(t: Value): (r: Value)
    ensures t == Str("::") ==> r == Str("static")
    ensures t == Str("->") ==> r == Str("method")
    ensures t.Str? && t.s != "::" && t.s != "->" ==> r == t
    ensures r == Str("static") || r == Str("method") || r == t
  {
    if LooseEqualsWord(t, "::") then Str("static")
    else if LooseEqualsWord(t, "->") then Str("method")
    else t
  }

  /** The loose comparison at work: `true` is taken for "::". */
  lemma TrueTypeIsStatic()
    ensures GetType(Bool(true)) == Str("static")
  {
  }

  /** `$event[$k]` after the timestamp step. */
  function Field(event: seq<Entry>, k: string): Value {
    Index(Arr(event), k)
  }

  /** `$event['extra'][$k]`. */
  function Extra(event: seq<Entry>, k: string): Value {
    Index(Field(event, "extra"), k)
  }

  /** The labels of a trace frame's six lines, in order. */
  const Labels: seq<string> := ["File  : ", "Line  : ", "Func  : ", "Class : ", "Type  : ", "Args  : "]

  /**
   The six lines of one frame, without their line breaks: file, line,
   function and class as strings, the type through `getType`, and the
   arguments through `print_r` (the parameter `printR`).
   */
  function FrameLines(frame: Value, printR: Value -> string): (lines: seq<string>)
    ensures |lines| == 6
    ensures forall j :: 0 <= j < 6 ==> StartsWith(lines[j], Labels[j])
    ensures lines[0] == Labels[0] + ToStr(Index(frame, "file"))
    ensures lines[1] == Labels[1] + ToStr(Index(frame, "line"))
    ensures lines[2] == Labels[2] + ToStr(Index(frame, "function"))
    ensures lines[3] == Labels[3] + ToStr(Index(frame, "class"))
    ensures lines[4] == Labels[4] + ToStr(GetType(Index(frame, "type")))
    ensures lines[5] == Labels[5] + printR(Index(frame, "args"))
  {
    var file := ToStr(Index(frame, "file"));
    var line := ToStr(Index(frame, "line"));
    var func := ToStr(Index(frame, "function"));
    var owner := ToStr(Index(frame, "class"));
    var kind := ToStr(GetType(Index(frame, "type")));
    var args := printR(Index(frame, "args"));
    LabelledLines(file, line, func, owner, kind, args);
    [Labels[0] + file, Labels[1] + line, Labels[2] + func, Labels[3] + owner, Labels[4] + kind, Labels[5] + args]
  }

  /** Each label followed by its value starts with that label. */
  lemma LabelledLines(file: string, line: string, func: string, owner: string, kind: string, args: string)
    ensures var lines := [Labels[0] + file, Labels[1] + line, Labels[2] + func, Labels[3] + owner, Labels[4] + kind, Labels[5] + args];
            forall j :: 0 <= j < 6 ==> StartsWith(lines[j], Labels[j])
  {
    var lines := [Labels[0] + file, Labels[1] + line, Labels[2] + func, Labels[3] + owner, Labels[4] + kind, Labels[5] + args];
    forall j | 0 <= j < 6
      ensures StartsWith(lines[j], Labels[j])
    {
      var tail := if j == 0 then file else if j == 1 then line else if j == 2 then func
                  else if j == 3 then owner else if j == 4 then kind else args;
      assert lines[j] == Labels[j] + tail;
      PrefixOfAppend(Labels[j], tail);
    }
  }

  lemma PrefixOfAppend(a: string, b: string)
    ensures StartsWith(a + b, a)
  {
    assert (a + b)[..|a|] == a;
  }

  /** Lines, each closed by a line break, one after the other. */
  function ClosedLines(lines: seq<string>): (text: string)
    ensures |lines| > 0 ==> text == lines[0] + "\n" + ClosedLines(lines[1..])
  {
    if |lines| == 0 then "" else lines[0] + "\n" + ClosedLines(lines[1..])
  }

  /** The text one frame adds to the trace block: its six labelled lines. */
  function FrameText(frame: Value, printR: Value -> string): string {
    ClosedLines(FrameLines(frame, printR))
  }

  /** The trace block: the frames' texts in trace order. */
  function TraceText(frames: seq<Value>, printR: Value -> string): string {
    if |frames| == 0 then "" else FrameText(frames[0], printR) + TraceText(frames[1..], printR)
  }

  /** What `foreach` visits in `extra['trace']`: its values, or nothing when it is not an array. */
  function Frames(trace: Value): seq<Value> {
    if trace.Arr? then ValuesOf(trace.entries) else []
  }

  /** The header line, read from the stamped event. */
  function Header(event: seq<Entry>): string {
    ToStr(Field(event, "timestamp")) + " " + HeaderTail(event)
  }

  /** The header after the timestamp: priority name and number, message, and where it was raised. */
  function HeaderTail(event: seq<Entry>): string {
    ToStr(Field(event, "priorityName")) + " (" + ToStr(Field(event, "priority")) + ") "
      + ToStr(Field(event, "message")) + " in " + ToStr(Extra(event, "file"))
      + " on line " + ToStr(Extra(event, "line"))
  }

  /**
   `format`: the timestamp step, then the layout. The line starts with the
   timestamp, which a `DateTime` shows in the configured date format.
   */
  function Format(h: Formatter, event: seq<Entry>, render: (int, string) -> string, printR: Value -> string): (out: string)
    ensures Field(event, "timestamp").Date? ==>
              StartsWith(out, render(Field(event, "timestamp").stamp, GetDateTimeFormat(h)) + " ")
    ensures !Field(event, "timestamp").Date? ==> StartsWith(out, ToStr(Field(event, "timestamp")) + " ")
  {
    var e := Stamp(event, GetDateTimeFormat(h), render);
    var out := FormatStamped(e, printR);
    var t := ToStr(Field(e, "timestamp"));
    assert StartsWith(out, t + " ") by {
      HeaderStartsWithTimestamp(e);
      PrefixTransitive(t + " ", Header(e), out);
    }
    out
  }

  /** The header is one line when none of the fields it shows holds a line break. */
  lemma HeaderIsOneLine(e: seq<Entry>)
    requires '\n' !in ToStr(Field(e, "timestamp")) && '\n' !in ToStr(Field(e, "priorityName"))
    requires '\n' !in ToStr(Field(e, "priority")) && '\n' !in ToStr(Field(e, "message"))
    requires '\n' !in ToStr(Extra(e, "file")) && '\n' !in ToStr(Extra(e, "line"))
    ensures '\n' !in Header(e)
  {
    var t := ToStr(Field(e, "timestamp"));
    var pn := ToStr(Field(e, "priorityName"));
    var p := ToStr(Field(e, "priority"));
    var m := ToStr(Field(e, "message"));
    var f := ToStr(Extra(e, "file"));
    var l := ToStr(Extra(e, "line"));
    var s := pn;
    NoBreakAppend(s, " (");
    s := s + " (";
    NoBreakAppend(s, p);
    s := s + p;
    NoBreakAppend(s, ") ");
    s := s + ") ";
    NoBreakAppend(s, m);
    s := s + m;
    NoBreakAppend(s, " in ");
    s := s + " in ";
    NoBreakAppend(s, f);
    s := s + f;
    NoBreakAppend(s, " on line ");
    s := s + " on line ";
    NoBreakAppend(s, l);
    s := s + l;
    assert s == HeaderTail(e);
    NoBreakAppend(t, " ");
    NoBreakAppend(t + " ", s);
  }

  lemma NoBreakAppend(a: string, b: string)
    requires '\n' !in a && '\n' !in b
    ensures '\n' !in a + b
  {
  }

  /** The header starts with the timestamp and a blank. */
  lemma HeaderStartsWithTimestamp(e: seq<Entry>)
    ensures StartsWith(Header(e), ToStr(Field(e, "timestamp")) + " ")
  {
    PrefixOfAppend(ToStr(Field(e, "timestamp")) + " ", HeaderTail(e));
  }

  lemma PrefixTransitive(a: string, b: string, c: string)
    requires StartsWith(b, a) && StartsWith(c, b)
    ensures StartsWith(c, a)
  {
    assert c[..|a|] == b[..|a|];
  }

  /**
   The layout of a stamped event: the header line, then, only when
   `extra['trace']` is not empty, the `[Trace]` marker and every frame's block.
   */
  function FormatStamped(e: seq<Entry>, printR: Value -> string): (out: string)
    ensures StartsWith(out, Header(e))
    ensures Empty(Extra(e, "trace")) ==> out == Header(e)
    ensures !Empty(Extra(e, "trace")) ==> out == Header(e) + "\n[Trace]\n" + TraceText(Frames(Extra(e, "trace")), printR)
  {
    var header := Header(e);
    var trace := Extra(e, "trace");
    var block := TraceBlock(trace, printR);
    PrefixOfAppend(header, block);
    AppendAssociates(header, "\n[Trace]\n", TraceText(Frames(trace), printR));
    assert Empty(trace) ==> header + block == header;
    header + block
  }

  /** What follows the header: nothing for an empty trace, else the marker and the frames. */
  function TraceBlock(trace: Value, printR: Value -> string): (block: string)
    ensures Empty(trace) ==> block == ""
    ensures !Empty(trace) ==> block == "\n[Trace]\n" + TraceText(Frames(trace), printR)
  {
    if Empty(trace) then "" else "\n[Trace]\n" + TraceText(Frames(trace), printR)
  }

  /** The lines of all frames, in trace order. */
  function TraceLines(frames: seq<Value>, printR: Value -> string): (lines: seq<string>)
    ensures |lines| == 6 * |frames|
  {
    Chunks(frames, frame => FrameLines(frame, printR), 6)
  }

  /** The concatenation of `f(x)` over `xs`, where every `f(x)` has length `n`. */
  function Chunks<A, T>(xs: seq<A>, f: A -> seq<T>, n: nat): (r: seq<T>)
    requires forall k :: 0 <= k < |xs| ==> |f(xs[k])| == n
    ensures |r| == n * |xs|
  {
    if |xs| == 0 then []
    else
      var rest := xs[1..];
      assert forall k :: 0 <= k < |rest| ==> |f(rest[k])| == n by {
        assert forall k :: 0 <= k < |rest| ==> rest[k] == xs[k + 1];
      }
      f(xs[0]) + Chunks(rest, f, n)
  }

  /** Element `n * i + j` of the concatenation is element `j` of chunk `i`. */
  lemma {:induction false} ChunksAt<A, T>(xs: seq<A>, f: A -> seq<T>, n: nat, i: nat, j: nat)
    requires forall k :: 0 <= k < |xs| ==> |f(xs[k])| == n
    requires i < |xs| && j < n
    ensures n * i + j < n * |xs|
    ensures Chunks(xs, f, n)[n * i + j] == f(xs[i])[j]
  {
    var head := f(xs[0]);
    var tail := Chunks(xs[1..], f, n);
    assert Chunks(xs, f, n) == head + tail;
    if i > 0 {
      assert forall k :: 0 <= k < |xs| - 1 ==> xs[1..][k] == xs[k + 1];
      ChunksAt(xs[1..], f, n, i - 1, j);
      assert n * i + j == n + (n * (i - 1) + j);
      assert xs[1..][i - 1] == xs[i];
    }
  }

  /** Line `6i + j` of the trace is line `j` of frame `i`, and carries label `j`. */
  lemma TraceLineAt(frames: seq<Value>, printR: Value -> string, i: nat, j: nat)
    requires i < |frames| && j < 6
    ensures TraceLines(frames, printR)[6 * i + j] == FrameLines(frames[i], printR)[j]
    ensures StartsWith(TraceLines(frames, printR)[6 * i + j], Labels[j])
  {
    var f := frame => FrameLines(frame, printR);
    assert forall k :: 0 <= k < |frames| ==> |f(frames[k])| == 6;
    ChunksAt(frames, f, 6, i, j);
    assert f(frames[i]) == FrameLines(frames[i], printR);
  }

  /** No line break inside any of a frame's six lines. */
  predicate SingleLineFrame(frame: Value, printR: Value -> string) {
    forall j :: 0 <= j < 6 ==> '\n' !in FrameLines(frame, printR)[j]
  }

  /**
   The trace block can be read back line by line: when no field renders with a
   line break, splitting it at line breaks yields exactly six labelled lines
   per frame, in trace order, and the empty text after the final break.
   */
  lemma {:induction false} TraceTextSplits(frames: seq<Value>, printR: Value -> string)
    requires forall i :: 0 <= i < |frames| ==> SingleLineFrame(frames[i], printR)
    ensures Explode(TraceText(frames, printR), '\n') == TraceLines(frames, printR) + [""]
  {
    if |frames| == 0 {
      assert TraceText(frames, printR) == "";
    } else {
      var rest := frames[1..];
      assert forall i :: 0 <= i < |rest| ==> rest[i] == frames[i + 1];
      TraceTextSplits(rest, printR);
      TraceTextSplitsStep(frames, printR);
    }
  }

  /** The inductive step: one more frame in front adds its six lines in front. */
  lemma TraceTextSplitsStep(frames: seq<Value>, printR: Value -> string)
    requires |frames| > 0 && SingleLineFrame(frames[0], printR)
    requires Explode(TraceText(frames[1..], printR), '\n') == TraceLines(frames[1..], printR) + [""]
    ensures Explode(TraceText(frames, printR), '\n') == TraceLines(frames, printR) + [""]
  {
    var restText := TraceText(frames[1..], printR);
    var restLines := TraceLines(frames[1..], printR);
    var lines := FrameLines(frames[0], printR);
    assert Explode(TraceText(frames, printR), '\n') == lines + Explode(restText, '\n') by {
      assert TraceText(frames, printR) == FrameText(frames[0], printR) + restText;
      FrameSplits(frames[0], printR, restText);
    }
    TraceLinesCons(frames, printR);
    AppendAssociates(lines, restLines, [""]);
  }

  /** The first frame's lines come first. */
  lemma TraceLinesCons(frames: seq<Value>, printR: Value -> string)
    requires |frames| > 0
    ensures TraceLines(frames, printR) == FrameLines(frames[0], printR) + TraceLines(frames[1..], printR)
  {
    var f := frame => FrameLines(frame, printR);
    assert forall k :: 0 <= k < |frames| ==> |f(frames[k])| == 6;
    assert forall k :: 0 <= k < |frames| - 1 ==> |f(frames[1..][k])| == 6;
    assert Chunks(frames, f, 6) == f(frames[0]) + Chunks(frames[1..], f, 6);
  }

  lemma AppendAssociates<T>(a: seq<T>, b: seq<T>, c: seq<T>)
    ensures a + (b + c) == (a + b) + c
  {
  }

  /** Splitting closed lines in front of `rest` yields those lines, then the parts of `rest`. */
  lemma {:induction false} ClosedLinesSplit(lines: seq<string>, rest: string)
    requires forall j :: 0 <= j < |lines| ==> '\n' !in lines[j]
    ensures Explode(ClosedLines(lines) + rest, '\n') == lines + Explode(rest, '\n')
  {
    if |lines| > 0 {
      var tail := lines[1..];
      var after := ClosedLines(tail) + rest;
      assert ClosedLines(lines) + rest == lines[0] + "\n" + after;
      ExplodeAround(lines[0], after, '\n');
      assert forall j :: 0 <= j < |tail| ==> tail[j] == lines[j + 1];
      ClosedLinesSplit(tail, rest);
      assert lines == [lines[0]] + tail;
      AppendAssociates([lines[0]], tail, Explode(rest, '\n'));
    } else {
      assert ClosedLines(lines) + rest == rest;
    }
  }

  /** Splitting one frame's block in front of `rest` yields its six lines first. */
  lemma FrameSplits(frame: Value, printR: Value -> string, rest: string)
    requires SingleLineFrame(frame, printR)
    ensures Explode(FrameText(frame, printR) + rest, '\n') == FrameLines(frame, printR) + Explode(rest, '\n')
  {
    ClosedLinesSplit(FrameLines(frame, printR), rest);
  }
}
