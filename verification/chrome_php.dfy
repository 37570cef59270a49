/**
 The ChromePhp log writer: it validates the console it is constructed with,
 falls back to the bridge when one is available, and sends each formatted
 event to exactly one of the console's channels, chosen by the event's
 priority. The eight priorities are the syslog severities of section 6.2.1
 of RFC 5424, from 0 (emergency) to 7 (debug).
 */
module ChromePhp {
  import opened Strings
  import opened Values

  const EMERG := 0
  const ALERT := 1
  const CRIT := 2
  const ERR := 3
  const WARN := 4
  const NOTICE := 5
  const INFO := 6
  const DEBUG := 7

  /** The console methods a line can be sent to. */
  datatype Channel = Error | Warn | Info | Trace | Log

  /** A `ChromePhpInterface` instance: the bridge, or one supplied by the caller. */
  datatype Console = Bridge | Custom(id: nat)

  /** One call of a console method with its line. */
  datatype Call = Call(console: Console, channel: Channel, line: string)

  /** The writer's state: the console it logs to, if any. */
  datatype Writer = Writer(chromephp: Option<Console>)

  /** Why a constructor or a write does not complete. */
  datatype Failure =
      /** `InvalidArgumentException`, with its message. */
    | InvalidArgument(message: string)
      /** A method called on a `null` console. */
    | NoConsole

  datatype Outcome<T> = Success(value: T) | Failure(failure: Failure)

  /**
   PHP's loose `$v == $n` for an integer `n`, as `switch` compares: booleans
   compare as booleans, `null` equals 0, an object converts to 1, a string
   equals `n` when it is `n`'s decimal rendering, and an array never does.
   */
  predicate LooseEqualsInt(v: Value, n: int) {
    match v
    case Null => n == 0
    case Bool(b) => b == (n != 0)
    case Int(i) => i == n
    case Str(s) => s == IntToStr(n)
    case Arr(_) => false
    case Obj(_, _) => n == 1
    case Date(_) => n == 1
  }

  /** The `switch` of `doWrite`: its cases in source order; the first one that matches decides. */
  function Dispatch(priority: Value): (c: Channel)
    ensures priority.Int? ==> c == LevelChannel(priority.i)
    ensures priority.Null? || priority.Bool? || priority.Obj? || priority.Date? ==> c == Error
    ensures priority.Arr? ==> c == Log
    ensures forall n :: 0 <= n <= 7 && priority == Str(IntToStr(n)) ==> c == LevelChannel(n)
    ensures priority.Str? && (forall n :: 0 <= n <= 7 ==> priority.s != IntToStr(n)) ==> c == Log
  {
    DigitStrings();
    if LooseEqualsInt(priority, EMERG) || LooseEqualsInt(priority, ALERT)
       || LooseEqualsInt(priority, CRIT) || LooseEqualsInt(priority, ERR) then Error
    else if LooseEqualsInt(priority, WARN) then Warn
    else if LooseEqualsInt(priority, NOTICE) || LooseEqualsInt(priority, INFO) then Info
    else if LooseEqualsInt(priority, DEBUG) then Trace
    else Log
  }

  /** The channel of each severity, read as ranges: the reference table `Dispatch` is held to. */
  function LevelChannel(level: int): Channel {
    if 0 <= level <= 3 then Error
    else if level == 4 then Warn
    else if 5 <= level <= 6 then Info
    else if level == 7 then Trace
    else Log
  }

  /** Every channel is reached by some severity, and by `log` only outside 0..7. */
  lemma LevelChannelCovers(level: int)
    ensures LevelChannel(level) == Log <==> level < 0 || level > 7
    ensures LevelChannel(EMERG) == Error && LevelChannel(WARN) == Warn
    ensures LevelChannel(INFO) == Info && LevelChannel(DEBUG) == Trace
  {
  }

  /** A priority written as its decimal string reaches the same channel as the integer. */
  lemma DecimalPriority(level: int)
    requires 0 <= level <= 7
    ensures Dispatch(Str(IntToStr(level))) == LevelChannel(level)
  {
    DigitStrings();
  }

  /** The renderings of 0..7 are the eight one-digit strings, pairwise different. */
  lemma DigitStrings()
    ensures forall n :: 0 <= n <= 7 ==> IntToStr(n) == [('0' as int + n) as char]
  {
  }

  /** A missing priority reads as `null`, which equals 0 and so goes to `error`. */
  lemma MissingPriorityIsError(event: seq<Entry>)
    requires "priority" !in Keys(event)
    ensures Dispatch(Index(Arr(event), "priority")) == Error
  {
  }

  /** `getChromePhp`: installs the bridge when no console is set and the bridge exists; returns the console. */
  function GetChromePhp(w: Writer, bridgeAvailable: bool): (r: (Writer, Option<Console>))
    ensures r.1 == r.0.chromephp
    ensures w.chromephp.Some? ==> r.0 == w
    ensures w.chromephp.None? && bridgeAvailable ==> r.1 == Some(Bridge)
    ensures w.chromephp.None? && !bridgeAvailable ==> r.0 == w && r.1 == None
  {
    var w' := if w.chromephp.None? && bridgeAvailable then SetChromePhp(w, Bridge) else w;
    (w', w'.chromephp)
  }

  /** `setChromePhp`: the writer logs to `c` from now on. */
  function SetChromePhp(w: Writer, c: Console): (w': Writer)
    ensures w'.chromephp == Some(c)
  {
    Writer(Some(c))
  }

  /** After `setChromePhp(x)`, `getChromePhp()` returns `x` and keeps it. */
  lemma SetThenGet(w: Writer, x: Console, bridgeAvailable: bool)
    ensures GetChromePhp(SetChromePhp(w, x), bridgeAvailable) == (SetChromePhp(w, x), Some(x))
  {
  }

  /** A constructor argument, as far as the constructor inspects it. */
  datatype Arg =
    | NullArg
    | ConsoleArg(console: Console)
      /** An array, with its entries in order (keys distinct). */
    | ArrayArg(items: seq<ArgItem>)
      /** A `Traversable`, with the key/value pairs it yields in order (keys may repeat). */
    | TraversableArg(items: seq<ArgItem>)
      /** Any other value. */
    | OtherArg

  datatype ArgItem = ArgItem(key: string, val: Arg)

  /**
   `$items['instance']` after `iterator_to_array`: the last value yielded
   under that key, as later pairs overwrite earlier ones.
   */
  function LastInstance(items: seq<ArgItem>): (r: Option<Arg>)
    ensures r.None? <==> forall i :: 0 <= i < |items| ==> items[i].key != "instance"
    ensures r.Some? ==> exists i :: LastInstanceAt(items, r.value, i)
  {
    if |items| == 0 then None
    else
      var last := items[|items| - 1];
      if last.key == "instance" then
        assert LastInstanceAt(items, last.val, |items| - 1);
        Some(last.val)
      else
        var init := items[..|items| - 1];
        var r := LastInstance(init);
        assert forall i :: 0 <= i < |init| ==> init[i] == items[i];
        if r.Some? then
          var i :| LastInstanceAt(init, r.value, i);
          assert LastInstanceAt(items, r.value, i);
          r
        else r
  }

  /** The pair at `i` is `'instance' => v`, and no later pair has that key. */
  predicate LastInstanceAt(items: seq<ArgItem>, v: Arg, i: int) {
    0 <= i < |items| && items[i] == ArgItem("instance", v)
    && forall j :: i < j < |items| ==> items[j].key != "instance"
  }

  /**
   The instance the constructor goes on with: a `Traversable` or an array
   gives its `'instance'` value (`null` when unset), anything else is itself.
   */
  function Resolve(arg: Arg): (r: Arg)
    ensures !arg.ArrayArg? && !arg.TraversableArg? ==> r == arg
    ensures (arg.ArrayArg? || arg.TraversableArg?) && LastInstance(arg.items).None? ==> r == NullArg
    ensures (arg.ArrayArg? || arg.TraversableArg?) && LastInstance(arg.items).Some? ==>
              r == LastInstance(arg.items).value
  {
    match arg
    case ArrayArg(items) => (match LastInstance(items) case Some(v) => v case None => NullArg)
    case TraversableArg(items) => (match LastInstance(items) case Some(v) => v case None => NullArg)
    case _ => arg
  }

  const InvalidInstanceMessage := "You must pass a valid Laminas\\Log\\Writer\\ChromePhp\\ChromePhpInterface"

  /**
   `__construct($instance)`: rejects a resolved instance that is neither
   `null` nor a console; takes a console as it is; for `null`, asks
   `getChromePhp`, which installs the bridge when it is available.
   */
  function Construct(arg: Arg, bridgeAvailable: bool): (r: Outcome<Writer>)
    ensures r.Failure? <==> !(Resolve(arg).NullArg? || Resolve(arg).ConsoleArg?)
    ensures r.Failure? ==> r.failure == InvalidArgument(InvalidInstanceMessage)
    ensures Resolve(arg).ConsoleArg? ==> r == Success(Writer(Some(Resolve(arg).console)))
    ensures Resolve(arg).NullArg? ==> r == Success(Writer(if bridgeAvailable then Some(Bridge) else None))
  {
    var instance := Resolve(arg);
    match instance
    case NullArg => Success(GetChromePhp(Writer(None), bridgeAvailable).0)
    case ConsoleArg(c) => Success(Writer(Some(c)))
    case _ => Failure(InvalidArgument(InvalidInstanceMessage))
  }

  /** The later of two `'instance'` pairs of a `Traversable` is the one used. */
  lemma LaterInstanceWins(a: Console, b: Console, bridgeAvailable: bool)
    ensures Construct(TraversableArg([ArgItem("instance", ConsoleArg(a)), ArgItem("instance", ConsoleArg(b))]),
                      bridgeAvailable) == Success(Writer(Some(b)))
  {
  }

  /** An array whose `'instance'` is itself an array is rejected. */
  lemma NestedArrayRejected(bridgeAvailable: bool)
    ensures Construct(ArrayArg([ArgItem("instance", ArrayArg([]))]), bridgeAvailable).Failure?
  {
  }

  /**
   `doWrite($event)`: formats the event once and sends that line to the one
   channel its priority selects; the calls made so far are `log`, and the
   result is the log after the write.
   */
  function Write(w: Writer, log: seq<Call>, event: seq<Entry>, format: seq<Entry> -> string): (r: Outcome<seq<Call>>)
    ensures r.Failure? <==> w.chromephp.None?
    ensures r.Failure? ==> r.failure == NoConsole
    ensures r.Success? ==> |r.value| == |log| + 1 && r.value[..|log|] == log
    ensures r.Success? ==> r.value[|log|].console == w.chromephp.value
                           && r.value[|log|].line == format(event)
    ensures r.Success? && Index(Arr(event), "priority").Int? ==>
              r.value[|log|].channel == LevelChannel(Index(Arr(event), "priority").i)
  {
    var line := format(event);
    match w.chromephp
    case None => Failure(NoConsole)
    case Some(c) => Success(log + [Call(c, Dispatch(Index(Arr(event), "priority")), line)])
  }

  /** Writing several events in order: one call per event, each in its event's place. */
  function WriteAll(w: Writer, log: seq<Call>, events: seq<seq<Entry>>, format: seq<Entry> -> string): (r: Outcome<seq<Call>>)
    decreases |events|
  {
    if |events| == 0 then Success(log)
    else
      match Write(w, log, events[0], format)
      case Failure(f) => Failure(f)
      case Success(log') => WriteAll(w, log', events[1..], format)
  }

  /** With a console set, `n` events produce exactly `n` calls, the `i`-th carrying event `i`'s line. */
  lemma {:induction false} WriteAllOneCallEach(w: Writer, log: seq<Call>, events: seq<seq<Entry>>, format: seq<Entry> -> string)
    requires w.chromephp.Some?
    ensures WriteAll(w, log, events, format).Success?
    ensures var out := WriteAll(w, log, events, format).value;
            |out| == |log| + |events| && out[..|log|] == log
            && forall i :: 0 <= i < |events| ==>
                 out[|log| + i] == Call(w.chromephp.value, Dispatch(Index(Arr(events[i]), "priority")), format(events[i]))
    decreases |events|
  {
    if |events| > 0 {
      var log' := Write(w, log, events[0], format).value;
      WriteAllOneCallEach(w, log', events[1..], format);
      var out := WriteAll(w, log', events[1..], format).value;
      assert out[..|log'|] == log';
      assert out[..|log|] == log' [..|log|];
      forall i | 0 <= i < |events|
        ensures out[|log| + i] == Call(w.chromephp.value, Dispatch(Index(Arr(events[i]), "priority")), format(events[i]))
      {
        if i > 0 {
          assert events[1..][i - 1] == events[i];
          assert out[|log'| + (i - 1)] == out[|log| + i];
        } else {
          assert out[|log|] == log'[|log|];
        }
      }
    }
  }
}
