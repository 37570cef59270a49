/**
 PHP values as the web-service client and the log formatters see them: the
 scalars, objects, and PHP's ordered arrays. An array is an association list
 in insertion order; keys are strings (an integer key `n` is written as its
 decimal string, which is also how PHP canonicalises numeric string keys).
 */
module Values {
  import opened Strings

  datatype Option<+T> = None | Some(value: T)

  datatype Value =
    | Null
    | Bool(b: bool)
    | Int(i: int)
    | Str(s: string)
    | Arr(entries: seq<Entry>)
      /** An object; `printable` says whether it has `__toString`, whose result is `text`. */
    | Obj(printable: bool, text: string)
      /** A `DateTime` instance (which has no `__toString`). */
    | Date(stamp: int)

  datatype Entry = Entry(key: string, val: Value)

  /** The keys of an array, in order. */
  function Keys(es: seq<Entry>): (ks: seq<string>)
    ensures |ks| == |es|
    ensures forall i :: 0 <= i < |es| ==> ks[i] == es[i].key
  {
    if |es| == 0 then [] else [es[0].key] + Keys(es[1..])
  }

  predicate Distinct(ks: seq<string>) {
    forall i, j :: 0 <= i < j < |ks| ==> ks[i] != ks[j]
  }

  /** Every PHP array has pairwise distinct keys. */
  predicate UniqueKeys(es: seq<Entry>) {
    Distinct(Keys(es))
  }

  /** `$a[$k]` when the key may be missing: the value of the first entry with key `k`. */
  function Lookup(es: seq<Entry>, k: string): (r: Option<Value>)
    ensures r.Some? <==> k in Keys(es)
    ensures r.Some? ==> Entry(k, r.value) in es
  {
    if |es| == 0 then None
    else if es[0].key == k then Some(es[0].val)
    else Lookup(es[1..], k)
  }

  /** Lookup in a concatenation: the first part wins. */
  lemma {:induction false} LookupAppend(a: seq<Entry>, b: seq<Entry>, k: string)
    ensures Lookup(a + b, k) == if k in Keys(a) then Lookup(a, k) else Lookup(b, k)
  {
    if |a| > 0 {
      assert (a + b)[1..] == a[1..] + b;
      LookupAppend(a[1..], b, k);
      assert Keys(a) == [a[0].key] + Keys(a[1..]);
    } else {
      assert a + b == b;
    }
  }

  /**
   PHP's assignment `$a[$k] = $v`: an existing key keeps its position and gets
   the new value; a new key is appended.
   */
  function Put(es: seq<Entry>, k: string, v: Value): (r: seq<Entry>)
    ensures Lookup(r, k) == Some(v)
    ensures forall k' :: k' != k ==> Lookup(r, k') == Lookup(es, k')
    ensures k in Keys(es) ==> Keys(r) == Keys(es)
    ensures k !in Keys(es) ==> Keys(r) == Keys(es) + [k]
  {
    forall k' ensures Lookup(Assign(es, k, v), k') == if k' == k then Some(v) else Lookup(es, k') {
      AssignLookup(es, k, v, k');
    }
    AssignKeys(es, k, v);
    Assign(es, k, v)
  }

  /** The entries after `$a[$k] = $v`, entry by entry. */
  function Assign(es: seq<Entry>, k: string, v: Value): seq<Entry> {
    if |es| == 0 then [Entry(k, v)]
    else if es[0].key == k then [Entry(k, v)] + es[1..]
    else [es[0]] + Assign(es[1..], k, v)
  }

  lemma {:induction false} AssignLookup(es: seq<Entry>, k: string, v: Value, k': string)
    ensures Lookup(Assign(es, k, v), k') == if k' == k then Some(v) else Lookup(es, k')
  {
    if |es| > 0 {
      LookupCons(es[0], es[1..], k');
      assert es == [es[0]] + es[1..];
      if es[0].key == k {
        LookupCons(Entry(k, v), es[1..], k');
      } else {
        AssignLookup(es[1..], k, v, k');
        LookupCons(es[0], Assign(es[1..], k, v), k');
      }
    }
  }

  lemma {:induction false} AssignKeys(es: seq<Entry>, k: string, v: Value)
    ensures k in Keys(es) ==> Keys(Assign(es, k, v)) == Keys(es)
    ensures k !in Keys(es) ==> Keys(Assign(es, k, v)) == Keys(es) + [k]
  {
    if |es| > 0 {
      KeysCons(es[0], es[1..]);
      assert es == [es[0]] + es[1..];
      if es[0].key == k {
        KeysCons(Entry(k, v), es[1..]);
      } else {
        AssignKeys(es[1..], k, v);
        KeysCons(es[0], Assign(es[1..], k, v));
      }
    }
  }

  lemma KeysCons(e: Entry, rest: seq<Entry>)
    ensures Keys([e] + rest) == [e.key] + Keys(rest)
  {
    assert ([e] + rest)[1..] == rest;
  }

  lemma LookupCons(e: Entry, rest: seq<Entry>, k: string)
    ensures Lookup([e] + rest, k) == if e.key == k then Some(e.val) else Lookup(rest, k)
  {
    assert ([e] + rest)[1..] == rest;
  }

  /** Assignment keeps an array's keys distinct. */
  lemma PutUnique(es: seq<Entry>, k: string, v: Value)
    ensures UniqueKeys(es) ==> UniqueKeys(Put(es, k, v))
  {
  }

  /**
   `array_merge($acc, $xs)` for string keys: every entry of `xs` is assigned
   into `acc` in order, so on a shared key the value of `xs` wins.
   */
  function Merge(acc: seq<Entry>, xs: seq<Entry>): (r: seq<Entry>)
    requires UniqueKeys(xs)
    decreases |xs|
    ensures forall k :: Lookup(r, k) == (if k in Keys(xs) then Lookup(xs, k) else Lookup(acc, k))
    ensures UniqueKeys(acc) ==> UniqueKeys(r)
  {
    if |xs| == 0 then acc
    else
      var x := xs[0];
      var rest := xs[1..];
      assert Keys(xs) == [x.key] + Keys(rest);
      assert x.key !in Keys(rest);
      assert UniqueKeys(rest);
      var acc' := Put(acc, x.key, x.val);
      PutUnique(acc, x.key, x.val);
      var r := Merge(acc', rest);
      assert forall k :: k in Keys(rest) ==> Lookup(xs, k) == Lookup(rest, k);
      r
  }

  /** `$v[$k]` as PHP reads it: `null` when `v` is not an array or lacks the key. */
  function Index(v: Value, k: string): (r: Value)
    ensures !v.Arr? ==> r == Null
    ensures v.Arr? && k !in Keys(v.entries) ==> r == Null
    ensures v.Arr? && Lookup(v.entries, k).Some? ==> r == Lookup(v.entries, k).value
  {
    match v
    case Arr(es) => (match Lookup(es, k) case Some(x) => x case None => Null)
    case _ => Null
  }

  /** `isset($v[$k])`: the key is there and its value is not `null`. */
  predicate Isset(v: Value, k: string): (b: bool)
    ensures b <==> v.Arr? && Lookup(v.entries, k).Some? && Lookup(v.entries, k).value != Null
  {
    Index(v, k) != Null
  }

  /** PHP `empty($v)`. */
  predicate Empty(v: Value) {
    match v
    case Null => true
    case Bool(b) => !b
    case Int(i) => i == 0
    case Str(s) => s == "" || s == "0"
    case Arr(es) => es == []
    case _ => false
  }

  /**
   PHP's string conversion, as `.`, interpolation and `str_replace` apply it.
   A string is itself, and a scalar is falsy exactly when its text is `""` or
   `"0"`.
   */
  function ToStr(v: Value): (r: string)
    ensures v.Str? ==> r == v.s
    ensures v.Null? || v.Bool? || v.Int? || v.Str? ==> (Empty(v) <==> r == "" || r == "0")
  {
    match v
    case Null => ""
    case Bool(b) => if b then "1" else ""
    case Int(i) => IntToStr(i)
    case Str(s) => s
    case Arr(_) => "Array"
    case Obj(_, t) => t
    case Date(_) => ""
  }

  /** The values of an array, in order (what `foreach ($a as $v)` visits). */
  function ValuesOf(es: seq<Entry>): (vs: seq<Value>)
    ensures |vs| == |es|
    ensures forall i :: 0 <= i < |es| ==> vs[i] == es[i].val
  {
    if |es| == 0 then [] else [es[0].val] + ValuesOf(es[1..])
  }
}
