/**
 What the log formatters share about an event: the `DateTime` timestamp is
 rendered in the formatter's date format before anything else is read.
 */
module LogEvent {
  import opened Values

  /**
   The timestamp step of both formatters: a `DateTime` under `timestamp` is
   replaced, in place, by its rendering in the configured date format
   (`render` stands for `DateTime::format`); any other event is left alone.
   */
  function Stamp(event: seq<Entry>, dateTimeFormat: string, render: (int, string) -> string): (e: seq<Entry>)
    ensures Index(Arr(event), "timestamp").Date? ==>
              Lookup(e, "timestamp") == Some(Str(render(Index(Arr(event), "timestamp").stamp, dateTimeFormat))) &&
              forall k :: k != "timestamp" ==> Lookup(e, k) == Lookup(event, k)
    ensures !Index(Arr(event), "timestamp").Date? ==> e == event
    ensures Keys(e) == Keys(event)
  {
    var t := Index(Arr(event), "timestamp");
    if t.Date? then Put(event, "timestamp", Str(render(t.stamp, dateTimeFormat))) else event
  }
}
