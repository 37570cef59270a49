/**
 The placeholder formatter for PHP errors: an event (a nested PHP array) is
 flattened into named replacements, and every `%name%` in the template is
 replaced by the value of `name`, one `str_replace` per replacement.
 */
module ErrorHandler {
  import opened Strings
  import opened Values
  import opened LogEvent

  // ---------------------------------------------------------------------------
  // Flattening the event
  // ---------------------------------------------------------------------------

  /** The replacement name of index `index` under path `key`: bare at the top, `key[index]` below. */
  function NextIndex(key: Option<string>, index: string): string {
    match key
    case None => index
    case Some(k) => k + "[" + index + "]"
  }

  /**
   Whether a value other than an array becomes a replacement: never `null`;
   at the top level anything else; below it, no object lacking `__toString`
   (a `DateTime` lacks one).
   */
  predicate Recorded(v: Value, nested: bool) {
    v != Null && !v.Arr? && (!nested || !((v.Obj? && !v.printable) || v.Date?))
  }

  /**
   The loop of `buildReplacementsFromArray` from accumulator `acc` on, one
   entry of the event at a time.
   */
  function BuildFrom(acc: seq<Entry>, event: seq<Entry>, key: Option<string>): (r: seq<Entry>)
    requires UniqueKeys(acc)
    ensures UniqueKeys(r)
    decreases event
  {
    if |event| == 0 then acc else BuildFrom(AddEntry(acc, event[0], key), event[1..], key)
  }

  /**
   One turn of that loop: a nested array is flattened on its own and
   `array_merge`d in, a recorded value is assigned under its name, and
   anything else is skipped.
   */
  function AddEntry(acc: seq<Entry>, e: Entry, key: Option<string>): (r: seq<Entry>)
    requires UniqueKeys(acc)
    ensures UniqueKeys(r)
    decreases e
  {
    var next := NextIndex(key, e.key);
    match e.val
    case Arr(children) => Merge(acc, BuildFrom([], children, Some(next)))
    case _ => if Recorded(e.val, key.Some?) then (PutUnique(acc, next, e.val); Put(acc, next, e.val)) else acc
  }

  /** `buildReplacementsFromArray($event)`, the replacements `format` applies. */
  function Replacements(event: seq<Entry>): (r: seq<Entry>)
    ensures UniqueKeys(r)
    ensures forall k :: Lookup(r, k) == LastValue(Leaves(event, None), k)
  {
    BuildFromMatchesLeaves([], event, None);
    BuildFrom([], event, None)
  }

  /**
   The reference flattening: every recorded leaf of the event under its full
   name, depth first and in order, with nothing merged.
   */
  function Leaves(event: seq<Entry>, key: Option<string>): (leaves: seq<Entry>)
    ensures forall i :: 0 <= i < |leaves| ==> Recorded(leaves[i].val, key.Some?)
    ensures key.Some? ==> forall i :: 0 <= i < |leaves| ==> StartsWith(leaves[i].key, key.value + "[")
    decreases event
  {
    if |event| == 0 then [] else LeavesOf(event[0], key) + Leaves(event[1..], key)
  }

  function LeavesOf(e: Entry, key: Option<string>): (leaves: seq<Entry>)
    ensures forall i :: 0 <= i < |leaves| ==> Recorded(leaves[i].val, key.Some?)
    ensures key.Some? ==> forall i :: 0 <= i < |leaves| ==> StartsWith(leaves[i].key, key.value + "[")
    decreases e
  {
    var next := NextIndex(key, e.key);
    match e.val
    case Arr(children) =>
      var inner := Leaves(children, Some(next));
      assert key.Some? ==> forall i :: 0 <= i < |inner| ==> StartsWith(inner[i].key, key.value + "[") by {
        if key.Some? {
          forall i | 0 <= i < |inner|
            ensures StartsWith(inner[i].key, key.value + "[")
          {
            assert StartsWith(inner[i].key, next + "[");
            assert inner[i].key[..|key.value + "["|] == next[..|key.value + "["|];
          }
        }
      }
      inner
    case _ => if Recorded(e.val, key.Some?) then [Entry(next, e.val)] else []
  }

  /** `name` is the path `path` itself or lies beneath it. */
  predicate Under(name: string, path: string) {
    name == path || StartsWith(name, path + "[")
  }

  /**
   How leaves are named: a recorded scalar appears under its key at the top
   and as `key[index]` below, and every leaf lies under the name of the entry
   it comes from.
   */
  lemma {:induction false} LeavesNamed(event: seq<Entry>, key: Option<string>)
    ensures forall j :: 0 <= j < |event| && Recorded(event[j].val, key.Some?) ==>
              Entry(NextIndex(key, event[j].key), event[j].val) in Leaves(event, key)
    ensures forall i :: 0 <= i < |Leaves(event, key)| ==>
              exists j :: 0 <= j < |event| && Under(Leaves(event, key)[i].key, NextIndex(key, event[j].key))
    decreases |event|
  {
    if |event| > 0 {
      var first := LeavesOf(event[0], key);
      var rest := Leaves(event[1..], key);
      var leaves := Leaves(event, key);
      assert leaves == first + rest;
      LeavesNamed(event[1..], key);
      LeavesOfNamed(event[0], key);
      forall j | 0 <= j < |event| && Recorded(event[j].val, key.Some?)
        ensures Entry(NextIndex(key, event[j].key), event[j].val) in leaves
      {
        if j > 0 {
          assert event[1..][j - 1] == event[j];
        }
      }
      forall i | 0 <= i < |leaves|
        ensures exists j :: 0 <= j < |event| && Under(leaves[i].key, NextIndex(key, event[j].key))
      {
        if i < |first| {
          assert Under(leaves[i].key, NextIndex(key, event[0].key));
        } else {
          assert leaves[i] == rest[i - |first|];
          var j :| 0 <= j < |event| - 1 && Under(rest[i - |first|].key, NextIndex(key, event[1..][j].key));
          assert event[1..][j] == event[j + 1];
          assert Under(leaves[i].key, NextIndex(key, event[j + 1].key));
        }
      }
    } else {
      assert Leaves(event, key) == [];
    }
  }

  /** The leaves of one entry: itself when it is recorded, else names beneath its own. */
  lemma LeavesOfNamed(e: Entry, key: Option<string>)
    ensures Recorded(e.val, key.Some?) ==> LeavesOf(e, key) == [Entry(NextIndex(key, e.key), e.val)]
    ensures forall i :: 0 <= i < |LeavesOf(e, key)| ==> Under(LeavesOf(e, key)[i].key, NextIndex(key, e.key))
  {
  }

  /** The value of the last entry named `k`, which is the one an assignment sequence leaves behind. */
  function LastValue(xs: seq<Entry>, k: string): (r: Option<Value>)
    ensures r.Some? ==> Entry(k, r.value) in xs
    ensures r.None? ==> k !in Keys(xs)
  {
    if |xs| == 0 then None
    else if xs[|xs| - 1].key == k then Some(xs[|xs| - 1].val)
    else
      var r := LastValue(xs[..|xs| - 1], k);
      assert Keys(xs) == Keys(xs[..|xs| - 1]) + [xs[|xs| - 1].key];
      r
  }

  lemma {:induction false} LastValueAppend(a: seq<Entry>, b: seq<Entry>, k: string)
    ensures LastValue(a + b, k) == if LastValue(b, k).Some? then LastValue(b, k) else LastValue(a, k)
    decreases |b|
  {
    if |b| > 0 {
      assert (a + b)[..|a + b| - 1] == a + b[..|b| - 1];
      LastValueAppend(a, b[..|b| - 1], k);
    } else {
      assert a + b == a;
    }
  }

  /** `a` unless it is absent, then `b`. */
  function Or(a: Option<Value>, b: Option<Value>): Option<Value> {
    if a.Some? then a else b
  }

  /**
   The flattening agrees with the reference: looking a name up in the result
   finds the last leaf of that name, or else what the accumulator held. So a
   later leaf overrides an earlier one of the same flattened name.
   */
  lemma {:induction false} BuildFromMatchesLeaves(acc: seq<Entry>, event: seq<Entry>, key: Option<string>)
    requires UniqueKeys(acc)
    ensures forall k :: Lookup(BuildFrom(acc, event, key), k) == Or(LastValue(Leaves(event, key), k), Lookup(acc, k))
    decreases event
  {
    if |event| > 0 {
      var acc' := AddEntry(acc, event[0], key);
      var first := LeavesOf(event[0], key);
      AddEntryMatchesLeaves(acc, event[0], key);
      BuildFromMatchesLeaves(acc', event[1..], key);
      forall k
        ensures Lookup(BuildFrom(acc, event, key), k) == Or(LastValue(Leaves(event, key), k), Lookup(acc, k))
      {
        LastValueAppend(first, Leaves(event[1..], key), k);
      }
    }
  }

  lemma {:induction false} AddEntryMatchesLeaves(acc: seq<Entry>, e: Entry, key: Option<string>)
    requires UniqueKeys(acc)
    ensures forall k :: Lookup(AddEntry(acc, e, key), k) == Or(LastValue(LeavesOf(e, key), k), Lookup(acc, k))
    decreases e
  {
    var next := NextIndex(key, e.key);
    if e.val.Arr? {
      var children := e.val.entries;
      var xs := BuildFrom([], children, Some(next));
      BuildFromMatchesLeaves([], children, Some(next));
      assert AddEntry(acc, e, key) == Merge(acc, xs);
      assert LeavesOf(e, key) == Leaves(children, Some(next));
      forall k
        ensures Lookup(AddEntry(acc, e, key), k) == Or(LastValue(LeavesOf(e, key), k), Lookup(acc, k))
      {
        assert (k in Keys(xs)) == Lookup(xs, k).Some?;
      }
    } else if Recorded(e.val, key.Some?) {
      assert LeavesOf(e, key) == [Entry(next, e.val)];
      assert AddEntry(acc, e, key) == Put(acc, next, e.val);
      forall k
        ensures Lookup(AddEntry(acc, e, key), k) == Or(LastValue(LeavesOf(e, key), k), Lookup(acc, k))
      {
        LastValueSingle(next, e.val, k);
      }
    } else {
      assert LeavesOf(e, key) == [];
      assert AddEntry(acc, e, key) == acc;
    }
  }

  lemma LastValueSingle(n: string, v: Value, k: string)
    ensures LastValue([Entry(n, v)], k) == if n == k then Some(v) else None
  {
    assert [Entry(n, v)][..0] == [];
  }

  /** The replacements, looked up by name, are the last leaves of the event. */
  lemma ReplacementsMatchLeaves(event: seq<Entry>)
    ensures forall k :: Lookup(Replacements(event), k) == LastValue(Leaves(event, None), k)
  {
    BuildFromMatchesLeaves([], event, None);
  }

  /** No replacement is null or an array: nulls are skipped and arrays flattened. */
  lemma ReplacementsAreScalars(event: seq<Entry>, k: string)
    requires Lookup(Replacements(event), k).Some?
    ensures Lookup(Replacements(event), k).value != Null
    ensures !Lookup(Replacements(event), k).value.Arr?
  {
    ReplacementsMatchLeaves(event);
    var leaves := Leaves(event, None);
    var i :| 0 <= i < |leaves| && leaves[i] == Entry(k, Lookup(Replacements(event), k).value);
  }

  /** Flattening a one-entry array is one turn of the loop. */
  lemma BuildFromSingle(acc: seq<Entry>, e: Entry, key: Option<string>)
    requires UniqueKeys(acc)
    ensures BuildFrom(acc, [e], key) == AddEntry(acc, e, key)
  {
    assert [e][1..] == [];
  }

  /** A scalar nested one level down is named `outer[inner]`. */
  lemma NestedValueIsNamedByPath(outer: string, inner: string, v: Value)
    requires Recorded(v, true)
    ensures Replacements([Entry(outer, Arr([Entry(inner, v)]))]) == [Entry(outer + "[" + inner + "]", v)]
  {
    var leaf := Entry(outer + "[" + inner + "]", v);
    BuildFromSingle([], Entry(inner, v), Some(outer));
    assert AddEntry([], Entry(inner, v), Some(outer)) == [leaf];
    assert Merge([], [leaf]) == [leaf] by {
      assert [leaf][1..] == [];
    }
    BuildFromSingle([], Entry(outer, Arr([Entry(inner, v)])), None);
  }

  /** An object without `__toString` is kept at the top level but dropped one level down. */
  lemma UnprintableObjectDroppedWhenNested(outer: string, inner: string, text: string)
    ensures Replacements([Entry(outer, Obj(false, text))]) == [Entry(outer, Obj(false, text))]
    ensures Replacements([Entry(outer, Arr([Entry(inner, Obj(false, text))]))]) == []
  {
    var o := Obj(false, text);
    BuildFromSingle([], Entry(outer, o), None);
    assert AddEntry([], Entry(outer, o), None) == [Entry(outer, o)];
    BuildFromSingle([], Entry(inner, o), Some(outer));
    assert AddEntry([], Entry(inner, o), Some(outer)) == [];
    BuildFromSingle([], Entry(outer, Arr([Entry(inner, o)])), None);
  }

  /**
   Flattened names can collide: a nested `extra => [a => y]` after a top-level
   `extra[a] => x` overrides it, and the name keeps its first position.
   */
  lemma LaterLeafWins(x: Value, y: Value)
    requires Recorded(x, false) && Recorded(y, true)
    ensures Replacements([Entry("extra[a]", x), Entry("extra", Arr([Entry("a", y)]))]) == [Entry("extra[a]", y)]
  {
    var event := [Entry("extra[a]", x), Entry("extra", Arr([Entry("a", y)]))];
    assert AddEntry([], event[0], None) == [Entry("extra[a]", x)];
    NestedValueIsNamedByPath("extra", "a", y);
    BuildFromSingle([], Entry("extra", Arr([Entry("a", y)])), None);
    var inner := BuildFrom([], [Entry("a", y)], Some("extra"));
    assert inner == [Entry("extra[a]", y)] by {
      BuildFromSingle([], Entry("a", y), Some("extra"));
    }
    assert Merge([Entry("extra[a]", x)], inner) == [Entry("extra[a]", y)] by {
      assert inner[1..] == [];
    }
    assert event[1..] == [event[1]];
    BuildFromSingle([Entry("extra[a]", x)], event[1], None);
  }

  /** A null value contributes nothing, at any depth. */
  lemma NullSkipped(before: seq<Entry>, name: string, after: seq<Entry>)
    ensures Leaves(before + [Entry(name, Null)] + after, None) == Leaves(before + after, None)
  {
    assert before + [Entry(name, Null)] + after == before + ([Entry(name, Null)] + after);
    LeavesAppend(before, [Entry(name, Null)] + after, None);
    LeavesAppend(before, after, None);
    assert ([Entry(name, Null)] + after)[1..] == after;
  }

  lemma {:induction false} LeavesAppend(a: seq<Entry>, b: seq<Entry>, key: Option<string>)
    ensures Leaves(a + b, key) == Leaves(a, key) + Leaves(b, key)
    decreases |a|
  {
    if |a| > 0 {
      assert (a + b)[0] == a[0];
      assert (a + b)[1..] == a[1..] + b;
      LeavesAppend(a[1..], b, key);
    } else {
      assert a + b == b;
    }
  }

  // ---------------------------------------------------------------------------
  // Formatting
  // ---------------------------------------------------------------------------

  /** The `str_replace` loop of `format`: each replacement in turn, on the output so far. */
  function ReplaceEach(output: string, reps: seq<Entry>): (r: string)
    ensures '%' !in output ==> r == output
    decreases |reps|
  {
    if |reps| == 0 then output
    else
      var pat := "%" + reps[0].key + "%";
      var next := ReplaceAll(output, pat, ToStr(reps[0].val));
      assert '%' !in output ==> next == output by {
        if '%' !in output {
          ReplaceAllSkips(output, "", pat, ToStr(reps[0].val));
          assert output + "" == output;
        }
      }
      ReplaceEach(next, reps[1..])
  }

  /** A text without `%` has no placeholder, so no replacement touches it. */
  lemma {:induction false} ReplaceEachWithoutPercent(output: string, reps: seq<Entry>)
    requires '%' !in output
    ensures ReplaceEach(output, reps) == output
    decreases |reps|
  {
    if |reps| > 0 {
      var pat := "%" + reps[0].key + "%";
      ReplaceAllSkips(output, "", pat, ToStr(reps[0].val));
      assert output + "" == output;
      ReplaceEachWithoutPercent(output, reps[1..]);
    }
  }

  /**
   `format`: stamp the event, flatten it, and replace each `%name%` in the
   template in flattening order. A template without `%` comes back unchanged.
   */
  function Format(template: string, dateTimeFormat: string, render: (int, string) -> string,
                  event: seq<Entry>): (out: string)
    ensures '%' !in template ==> out == template
  {
    var reps := Replacements(Stamp(event, dateTimeFormat, render));
    if '%' !in template then ReplaceEachWithoutPercent(template, reps); ReplaceEach(template, reps)
    else ReplaceEach(template, reps)
  }

  // ---------------------------------------------------------------------------
  // Templates as text and placeholders
  // ---------------------------------------------------------------------------

  /** A template cut into literal text and `%name%` placeholders. */
  datatype Piece = Text(t: string) | Hole(name: string)

  function PieceText(p: Piece): string {
    match p
    case Text(t) => t
    case Hole(n) => "%" + n + "%"
  }

  function Render(ps: seq<Piece>): string {
    if |ps| == 0 then "" else PieceText(ps[0]) + Render(ps[1..])
  }

  /** No `%` inside a text or a placeholder name. */
  predicate WellFormed(ps: seq<Piece>) {
    forall i :: 0 <= i < |ps| ==> '%' !in Content(ps[i])
  }

  /** A text piece's text, or a placeholder's name. */
  function Content(p: Piece): string {
    match p case Text(t) => t case Hole(n) => n
  }

  /** Before the next placeholder, if there is one, comes a space. */
  predicate Guarded(ps: seq<Piece>) {
    |ps| == 0 || (match ps[0] case Text(t) => ' ' in t || Guarded(ps[1..]) case Hole(_) => false)
  }

  /** Every placeholder is followed by a space before the next one. */
  predicate Separated(ps: seq<Piece>) {
    |ps| == 0 || ((ps[0].Hole? ==> Guarded(ps[1..])) && Separated(ps[1..]))
  }

  /** A replacement name that can only match a whole placeholder: no `%`, no space. */
  predicate PlainName(k: string) {
    '%' !in k && ' ' !in k
  }

  /** Replacements that match whole placeholders only and insert no `%`. */
  predicate PlainReplacements(reps: seq<Entry>) {
    forall i :: 0 <= i < |reps| ==> PlainName(reps[i].key) && '%' !in ToStr(reps[i].val)
  }

  /** The placeholders named `k` replaced by the text `s`. */
  function Fill(ps: seq<Piece>, k: string, s: string): (r: seq<Piece>)
    ensures |r| == |ps|
    ensures forall i :: 0 <= i < |ps| ==> r[i] == (if ps[i] == Hole(k) then Text(s) else ps[i])
  {
    if |ps| == 0 then [] else [if ps[0] == Hole(k) then Text(s) else ps[0]] + Fill(ps[1..], k, s)
  }

  /**
   The intended result of formatting: each placeholder whose name has a
   replacement becomes that value's text; the others stay.
   */
  function Resolve(ps: seq<Piece>, reps: seq<Entry>): (r: seq<Piece>)
    ensures |r| == |ps|
    ensures forall i :: 0 <= i < |ps| ==> r[i] == ResolvePiece(ps[i], reps)
  {
    if |ps| == 0 then [] else [ResolvePiece(ps[0], reps)] + Resolve(ps[1..], reps)
  }

  /**
   One piece of the intended result: literal text and a placeholder without a
   replacement stay; a placeholder with one becomes the text of the first
   replacement under its name.
   */
  function ResolvePiece(p: Piece, reps: seq<Entry>): (r: Piece)
    ensures p.Text? ==> r == p
    ensures p.Hole? && p.name !in Keys(reps) ==> r == p
    ensures p.Hole? && p.name in Keys(reps) ==> exists v :: Entry(p.name, v) in reps && r == Text(ToStr(v))
  {
    match p
    case Hole(n) => (match Lookup(reps, n) case Some(v) => Text(ToStr(v)) case None => p)
    case Text(_) => p
  }

  /** A guarded template text never starts with `k%` for a plain name `k`. */
  lemma {:induction false} GuardedNoMatch(ps: seq<Piece>, k: string)
    requires Guarded(ps) && WellFormed(ps) && PlainName(k)
    ensures !StartsWith(Render(ps), k + "%")
  {
    if |ps| > 0 {
      var t := ps[0].t;
      var rest := Render(ps[1..]);
      assert '%' !in t by { assert '%' !in (match ps[0] case Text(t) => t case Hole(n) => n); }
      assert Render(ps) == t + rest;
      if |t| > |k| {
        LongTextNoMatch(t, rest, k);
      } else if ' ' in t {
        SpacedTextNoMatch(t, rest, k);
      } else {
        var k' := k[|t|..];
        assert PlainName(k') by {
          assert forall c :: c in k' ==> c in k;
        }
        assert WellFormed(ps[1..]) by {
          assert forall i :: 0 <= i < |ps| - 1 ==> ps[1..][i] == ps[i + 1];
        }
        GuardedNoMatch(ps[1..], k');
        ShortTextMatch(t, rest, k);
      }
    }
  }

  /** Text without `%` that is longer than `k` cannot start `k%`. */
  lemma LongTextNoMatch(t: string, rest: string, k: string)
    requires '%' !in t && |t| > |k|
    ensures !StartsWith(t + rest, k + "%")
  {
    var S, pre := t + rest, k + "%";
    if |S| >= |pre| {
      assert S[..|pre|][|k|] == t[|k|] != '%';
      assert pre[|k|] == '%';
    }
  }

  /** Text no longer than `k` and holding a space cannot start `k%` when `k` has no space. */
  lemma SpacedTextNoMatch(t: string, rest: string, k: string)
    requires ' ' in t && |t| <= |k| && PlainName(k)
    ensures !StartsWith(t + rest, k + "%")
  {
    var S, pre := t + rest, k + "%";
    var j :| 0 <= j < |t| && t[j] == ' ';
    if |S| >= |pre| {
      assert S[..|pre|][j] == ' ';
      assert pre[j] == k[j] != ' ';
    }
  }

  /** A short text that starts `k%` is a prefix of `k`, and the rest starts what remains. */
  lemma ShortTextMatch(t: string, rest: string, k: string)
    requires |t| <= |k|
    ensures StartsWith(t + rest, k + "%") ==> StartsWith(rest, k[|t|..] + "%")
  {
    var S, pre := t + rest, k + "%";
    if StartsWith(S, pre) {
      assert pre == k[..|t|] + (k[|t|..] + "%");
      assert S[|t|..] == rest;
      assert S[|t|..|pre|] == pre[|t|..];
    }
  }

  /** Prefixes that agree on their first character. */
  lemma StartsWithCons(c: char, R: string, x: string)
    ensures StartsWith([c] + R, [c] + x) <==> StartsWith(R, x)
  {
    if |x| <= |R| {
      assert ([c] + R)[..|x| + 1] == [c] + R[..|x|];
      assert ([c] + R[..|x|])[1..] == R[..|x|];
      assert ([c] + x)[1..] == x;
    }
  }

  /** `str_replace` steps over a character that does not start a match. */
  lemma ReplaceAllStep(s: string, pat: string, rep: string)
    requires |pat| > 0 && |s| > 0 && !StartsWith(s, pat)
    ensures ReplaceAll(s, pat, rep) == [s[0]] + ReplaceAll(s[1..], pat, rep)
  {
    if |s| < |pat| {
      assert [s[0]] + s[1..] == s;
    }
  }

  /**
   One `str_replace` of `%k%` over a well-formed, separated template replaces
   exactly the placeholders named `k`.
   */
  lemma {:induction false} ReplaceOne(ps: seq<Piece>, k: string, s: string)
    requires WellFormed(ps) && Separated(ps) && PlainName(k)
    ensures ReplaceAll(Render(ps), "%" + k + "%", s) == Render(Fill(ps, k, s))
  {
    var pat := "%" + k + "%";
    if |ps| == 0 {
      assert Render(ps) == "";
    } else {
      var rest := ps[1..];
      var R := Render(rest);
      assert WellFormed(rest) by {
        assert forall i :: 0 <= i < |ps| - 1 ==> rest[i] == ps[i + 1];
      }
      ReplaceOne(rest, k, s);
      assert Fill(ps, k, s)[1..] == Fill(rest, k, s);
      assert '%' !in (match ps[0] case Text(t) => t case Hole(n) => n);
      match ps[0]
      case Text(t) =>
        ReplaceAllSkips(t, R, pat, s);
      case Hole(m) =>
        assert Render(ps) == "%" + m + "%" + R;
        if m == k {
          ReplaceAtHole(k, R, s);
        } else {
          GuardedNoMatch(rest, k);
          ReplacePastHole(m, R, k, s);
        }
    }
  }

  /** A placeholder named `k` is replaced, and the scan resumes after it. */
  lemma ReplaceAtHole(k: string, R: string, s: string)
    ensures ReplaceAll("%" + k + "%" + R, "%" + k + "%", s) == s + ReplaceAll(R, "%" + k + "%", s)
  {
    var pat := "%" + k + "%";
    var S := pat + R;
    assert S[..|pat|] == pat;
    assert S[|pat|..] == R;
  }

  /**
   A placeholder with another name is stepped over whole, provided no match
   starts at its closing `%`.
   */
  lemma PastHoleNoMatch(m: string, R: string, k: string)
    requires '%' !in m && m != k && PlainName(k)
    ensures !StartsWith("%" + m + "%" + R, "%" + k + "%")
  {
    var pat := "%" + k + "%";
    var S := "%" + m + "%" + R;
    if |S| >= |pat| {
      var P := S[..|pat|];
      if |k| < |m| {
        assert P[|k| + 1] == m[|k|] != '%';
        assert pat[|k| + 1] == '%';
      } else if |k| == |m| {
        var i :| 0 <= i < |m| && m[i] != k[i];
        assert P[i + 1] == m[i];
        assert pat[i + 1] == k[i];
      } else {
        assert P[|m| + 1] == '%';
        assert pat[|m| + 1] == k[|m|] != '%';
      }
    }
  }

  lemma ReplacePastHole(m: string, R: string, k: string, s: string)
    requires '%' !in m && m != k && PlainName(k)
    requires !StartsWith(R, k + "%")
    ensures ReplaceAll("%" + m + "%" + R, "%" + k + "%", s) == "%" + m + "%" + ReplaceAll(R, "%" + k + "%", s)
  {
    var pat := "%" + k + "%";
    var T := "%" + R;
    ReplaceAfterPercent(R, k, s);
    PastHoleNoMatch(m, R, k);
    assert "%" + m + "%" + R == "%" + m + T;
    ReplacePastName(m, T, pat, s);
  }

  /** After a `%` that starts no occurrence, a name free of `%` is kept as it is. */
  lemma ReplacePastName(m: string, T: string, pat: string, s: string)
    requires |pat| > 0 && pat[0] == '%' && '%' !in m
    requires !StartsWith("%" + m + T, pat)
    ensures ReplaceAll("%" + m + T, pat, s) == "%" + m + ReplaceAll(T, pat, s)
  {
    var S := "%" + m + T;
    ReplaceAllStep(S, pat, s);
    assert S[1..] == m + T;
    ReplaceAllSkips(m, T, pat, s);
  }

  /** A `%` not followed by `k%` is kept, and the scan resumes right after it. */
  lemma ReplaceAfterPercent(R: string, k: string, s: string)
    requires !StartsWith(R, k + "%")
    ensures ReplaceAll("%" + R, "%" + k + "%", s) == "%" + ReplaceAll(R, "%" + k + "%", s)
  {
    var pat := "%" + k + "%";
    var T := "%" + R;
    assert pat == "%" + (k + "%");
    StartsWithCons('%', R, k + "%");
    ReplaceAllStep(T, pat, s);
    assert T[1..] == R;
  }

  /** Filling placeholders keeps a template well-formed and separated. */
  lemma {:induction false} FillKeepsShape(ps: seq<Piece>, k: string, s: string)
    requires WellFormed(ps) && Separated(ps) && '%' !in s
    ensures WellFormed(Fill(ps, k, s)) && Separated(Fill(ps, k, s))
    ensures Guarded(ps) ==> Guarded(Fill(ps, k, s))
  {
    if |ps| > 0 {
      assert WellFormed(ps[1..]) by {
        assert forall i :: 0 <= i < |ps| - 1 ==> ps[1..][i] == ps[i + 1];
      }
      FillKeepsShape(ps[1..], k, s);
      assert Fill(ps, k, s)[1..] == Fill(ps[1..], k, s);
    }
  }

  /** Filling one name first, then resolving the rest, resolves them all. */
  lemma {:induction false} ResolveAfterFill(ps: seq<Piece>, reps: seq<Entry>)
    requires |reps| > 0
    ensures Resolve(Fill(ps, reps[0].key, ToStr(reps[0].val)), reps[1..]) == Resolve(ps, reps)
  {
    if |ps| > 0 {
      assert Fill(ps, reps[0].key, ToStr(reps[0].val))[1..] == Fill(ps[1..], reps[0].key, ToStr(reps[0].val));
      ResolveAfterFill(ps[1..], reps);
    }
  }

  /**
   The text loop agrees with the placeholder reading: over a well-formed,
   separated template and plain replacements, replacing one name at a time
   fills each placeholder with the first value of its name and leaves the
   placeholders without one verbatim.
   */
  lemma {:induction false} ReplaceEachResolves(ps: seq<Piece>, reps: seq<Entry>)
    requires WellFormed(ps) && Separated(ps) && PlainReplacements(reps)
    ensures ReplaceEach(Render(ps), reps) == Render(Resolve(ps, reps))
    decreases |reps|
  {
    if |reps| == 0 {
      ResolveNothing(ps, reps);
    } else {
      var k := reps[0].key;
      var s := ToStr(reps[0].val);
      ReplaceOne(ps, k, s);
      FillKeepsShape(ps, k, s);
      assert PlainReplacements(reps[1..]) by {
        assert forall i :: 0 <= i < |reps| - 1 ==> reps[1..][i] == reps[i + 1];
      }
      ReplaceEachResolves(Fill(ps, k, s), reps[1..]);
      ResolveAfterFill(ps, reps);
    }
  }

  /** With no replacements nothing is resolved. */
  lemma {:induction false} ResolveNothing(ps: seq<Piece>, reps: seq<Entry>)
    requires |reps| == 0
    ensures Resolve(ps, reps) == ps
  {
    if |ps| > 0 {
      ResolveNothing(ps[1..], reps);
    }
  }

  /**
   `format` on a template cut into pieces: each placeholder takes the text of
   its replacement from the flattened, stamped event, and a placeholder with
   none (an absent name or a null value) stays as it is.
   */
  lemma FormatResolves(ps: seq<Piece>, dateTimeFormat: string, render: (int, string) -> string, event: seq<Entry>)
    requires WellFormed(ps) && Separated(ps)
    requires PlainReplacements(Replacements(Stamp(event, dateTimeFormat, render)))
    ensures Format(Render(ps), dateTimeFormat, render, event) ==
            Render(Resolve(ps, Replacements(Stamp(event, dateTimeFormat, render))))
  {
    ReplaceEachResolves(ps, Replacements(Stamp(event, dateTimeFormat, render)));
  }

  /** The default template, piece by piece. */
  const DefaultPieces: seq<Piece> :=
    [Hole("timestamp"), Text(" "), Hole("priorityName"), Text(" ("), Hole("priority"), Text(") "),
     Hole("message"), Text(" (errno "), Hole("extra[errno]"), Text(") in "), Hole("extra[file]"),
     Text(" on line "), Hole("extra[line]")]

  /**
   The template used when none is configured: timestamp, priority name,
   priority in parentheses and message, then the error number, file and line
   taken from `extra`.
   */
  const DefaultFormat: string := Render(DefaultPieces)

  /** The texts and names the default template is made of. */
  const DefaultContents: seq<string> :=
    ["timestamp", " ", "priorityName", " (", "priority", ") ", "message",
     " (errno ", "extra[errno]", ") in ", "extra[file]", " on line ", "extra[line]"]

  lemma DefaultPiecesWellFormed()
    ensures WellFormed(DefaultPieces)
  {
    forall i | 0 <= i < |DefaultPieces| ensures '%' !in Content(DefaultPieces[i]) {
      assert Content(DefaultPieces[i]) == DefaultContents[i];
      DefaultContentsLackPercent(DefaultContents[i]);
    }
  }

  lemma DefaultContentsLackPercent(s: string)
    requires s in DefaultContents
    ensures '%' !in s
  {
  }

  /** Each placeholder is directly followed by a text holding a space. */
  predicate SpacedHoles(ps: seq<Piece>) {
    forall i :: 0 <= i < |ps| - 1 && ps[i].Hole? ==> ps[i + 1].Text? && ' ' in ps[i + 1].t
  }

  lemma {:induction false} SpacedHolesSeparated(ps: seq<Piece>)
    requires SpacedHoles(ps)
    ensures Separated(ps)
  {
    if |ps| > 0 {
      assert SpacedHoles(ps[1..]) by {
        assert forall i :: 0 <= i < |ps| - 1 ==> ps[1..][i] == ps[i + 1];
      }
      SpacedHolesSeparated(ps[1..]);
      if ps[0].Hole? && |ps| > 1 {
        assert ps[1..][0] == ps[1];
      }
    }
  }

  lemma DefaultPiecesSeparated()
    ensures Separated(DefaultPieces)
  {
    SpacedHolesSeparated(DefaultPieces);
  }

  /**
   `format` with the default template: each of its seven placeholders takes
   the text of its replacement, or stays as it is when the event has none.
   */
  lemma DefaultFormatResolves(dateTimeFormat: string, render: (int, string) -> string, event: seq<Entry>)
    requires PlainReplacements(Replacements(Stamp(event, dateTimeFormat, render)))
    ensures Format(DefaultFormat, dateTimeFormat, render, event) ==
            Render(Resolve(DefaultPieces, Replacements(Stamp(event, dateTimeFormat, render))))
  {
    DefaultPiecesWellFormed();
    DefaultPiecesSeparated();
    FormatResolves(DefaultPieces, dateTimeFormat, render, event);
  }

  /**
   Without the separation the text loop and the placeholder reading part: the
   text between two placeholders can itself be matched as a name.
   */
  lemma CrossingPlaceholder()
    ensures ReplaceEach("%m%n%k%", [Entry("n", Str("X"))]) == "%mXk%"
  {
    var s := "%m%n%k%";
    assert ReplaceAll("%n%k%", "%n%", "X") == "Xk%" by {
      assert "%n%k%"[3..] == "k%";
    }
    assert ReplaceAll(s[1..], "%n%", "X") == "m" + ReplaceAll("%n%k%", "%n%", "X") by {
      assert s[1..][1..] == "%n%k%";
    }
    assert ReplaceAll(s, "%n%", "X") == "%mXk%";
  }

  /**
   Without plain replacements the two readings part as well: a value that
   itself holds `%f%` is expanded by the later replacement for `f`, where the
   placeholder reading keeps it as text.
   */
  lemma PlaceholderInsideValue()
    ensures ReplaceEach("%m%", [Entry("m", Str("%f%")), Entry("f", Str("a"))]) == "a"
    ensures Render(Resolve([Hole("m")], [Entry("m", Str("%f%")), Entry("f", Str("a"))])) == "%f%"
  {
    var reps := [Entry("m", Str("%f%")), Entry("f", Str("a"))];
    assert ReplaceAll("%m%", "%m%", "%f%") == "%f%" by {
      assert "%m%"[3..] == "";
    }
    assert ReplaceAll("%f%", "%f%", "a") == "a" by {
      assert "%f%"[3..] == "";
    }
    assert reps[1..] == [Entry("f", Str("a"))];
    assert reps[1..][1..] == [];
    assert Resolve([Hole("m")], reps) == [Text("%f%")] by {
      assert [Hole("m")][1..] == [];
    }
    assert Render([Text("%f%")]) == "%f%" by {
      assert [Text("%f%")][1..] == [];
    }
  }
}
