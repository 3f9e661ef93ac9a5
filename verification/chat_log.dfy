/** Chat-log lines (src/chat_logger/log_listener.py) and the system-event
    filter (src/Services/system_event_manager.py). Reading the file, the
    polling thread and the signal objects stay outside: the lines that
    arrive are an input sequence and the emissions are returned. */
module ChatLog {
  import opened Wrappers
  import opened Text
  import opened Words
  import opened Seqs

  datatype Channel = SystemChannel | GlobalsChannel | OtherChannel

  /** One emission of a routed line: the channel's signal and its payload. */
  datatype Emission = Emission(channel: Channel, payload: string)

  // ------------------------------------------------------------ _channel_regex

  /** Positions of `\d` in `\d{4}-\d{2}-\d{2} \d{2}:\d{2}:\d{2} `. */
  predicate StampDigit(i: int) {
    0 <= i < 19 && i != 4 && i != 7 && i != 10 && i != 13 && i != 16
  }

  /** `s` starts with a timestamp `DDDD-DD-DD DD:DD:DD` and a space. */
  predicate HasStamp(s: string) {
    && |s| >= 20
    && (forall i :: 0 <= i < 19 && StampDigit(i) ==> IsDigit(s[i]))
    && s[4] == '-' && s[7] == '-' && s[10] == ' ' && s[13] == ':' && s[16] == ':' && s[19] == ' '
  }

  /** `.+$` without multi-line mode: at least one character other than a
      newline, up to the end or to a final newline. */
  predicate MessageTail(u: string) {
    var v := if |u| > 0 && u[|u| - 1] == '\n' then u[..|u| - 1] else u;
    |v| > 0 && '\n' !in v
  }

  /** `_channel_regex.search(line)`, giving the `channel` group. Without
      multi-line mode `^` only matches at the start. `\S+` followed by
      `\] ` must end where the non-space run ends (the space is not part
      of it), so the channel is that run less its final `]`. */
  function ChannelMatch(line: string): (r: Option<string>)
    ensures r.Some? ==> |r.value| > 0 && forall k :: 0 <= k < |r.value| ==> !IsSpace(r.value[k])
  {
    if !HasStamp(line) then None else Bracketed(line[20..])
  }

  /** `\[(?P<channel>\S+)\] .+$` after the timestamp. */
  function Bracketed(a: string): (r: Option<string>)
    ensures r.Some? ==> |r.value| > 0 && forall k :: 0 <= k < |r.value| ==> !IsSpace(r.value[k])
  {
    if |a| == 0 || a[0] != '[' then None else ChannelThenMessage(a[1..])
  }

  /** `(?P<channel>\S+)\] .+$`. */
  function ChannelThenMessage(b: string): (r: Option<string>)
    ensures r.Some? ==> |r.value| > 0 && forall k :: 0 <= k < |r.value| ==> !IsSpace(r.value[k])
  {
    var n := Run(b, NotSpace);
    if n < 2 || b[n - 1] != ']' || n == |b| || b[n] != ' ' || !MessageTail(b[n + 1..]) then None
    else Some(b[..n - 1])
  }

  /** A chat line as the game writes it. */
  function ChatLine(stamp: string, channel: string, message: string, nl: bool): string {
    stamp + " [" + channel + "] " + message + (if nl then "\n" else "")
  }

  /** Every well-formed chat line gives back its channel. */
  lemma ChannelRoundTrip(stamp: string, channel: string, message: string, nl: bool)
    requires |stamp| == 19 && HasStamp(stamp + " ")
    requires |channel| > 0 && forall k :: 0 <= k < |channel| ==> !IsSpace(channel[k])
    requires |message| > 0 && '\n' !in message
    ensures ChannelMatch(ChatLine(stamp, channel, message, nl)) == Some(channel)
  {
    var u := message + (if nl then "\n" else "");
    var b := channel + "] " + u;
    var line := ChatLine(stamp, channel, message, nl);
    assert line == (stamp + " ") + ("[" + b);
    StampPrefix(stamp + " ", "[" + b);
    assert ("[" + b)[1..] == b;
    MessageTailOf(message, nl);
    ChannelPart(channel, u);
  }

  lemma StampPrefix(stamp: string, t: string)
    requires |stamp| == 20 && HasStamp(stamp)
    ensures HasStamp(stamp + t) && (stamp + t)[20..] == t
  {
    assert forall i :: 0 <= i < 20 ==> (stamp + t)[i] == stamp[i];
  }

  lemma MessageTailOf(message: string, nl: bool)
    requires |message| > 0 && '\n' !in message
    ensures MessageTail(message + (if nl then "\n" else ""))
  {
    var u := message + (if nl then "\n" else "");
    if nl {
      assert u[..|u| - 1] == message;
    } else {
      assert u == message;
    }
  }

  lemma ChannelPart(channel: string, u: string)
    requires |channel| > 0 && forall k :: 0 <= k < |channel| ==> !IsSpace(channel[k])
    requires MessageTail(u)
    ensures ChannelThenMessage(channel + "] " + u) == Some(channel)
  {
    var b := channel + "] " + u;
    var n := |channel| + 1;
    assert b == (channel + "]") + (" " + u);
    RunExact(channel + "]", " " + u, NotSpace);
    assert b[n + 1..] == u;
    assert b[..n - 1] == channel;
  }

  /** A line without the timestamp is never routed. */
  lemma NoStampNoRoute(line: string)
    requires |line| < 20 || line[4] != '-'
    ensures ChannelMatch(line).None?
  {
  }

  // ------------------------------------------------------------ routing

  /** `_emit_by_channel`'s choice, as a tag: `system` or `globals` in any
      case, else any other channel. */
  function ChannelOf(name: string): (c: Channel)
    ensures c == SystemChannel <==> Lower(name) == "system"
    ensures c == GlobalsChannel <==> Lower(name) == "globals"
  {
    if Lower(name) == "system" then SystemChannel
    else if Lower(name) == "globals" then GlobalsChannel
    else OtherChannel
  }

  /** One line of `_worker` with the intended routing: a matching line is
      emitted once, on its channel, stripped. */
  function Route(line: string): (r: Option<Emission>)
    ensures r.Some? <==> ChannelMatch(line).Some?
    ensures r.Some? ==> r.value.payload == Strip(line)
    ensures r.Some? ==> r.value.channel == ChannelOf(ChannelMatch(line).value)
  {
    match ChannelMatch(line)
    case None => None
    case Some(ch) => Some(Emission(ChannelOf(ch), Strip(line)))
  }

  predicate Routed(line: string) {
    ChannelMatch(line).Some?
  }

  /** The worker over the lines that arrive, routing as intended: one
      emission per matching line, in arrival order. */
  function Worker(lines: seq<string>): (es: seq<Emission>)
    ensures |es| == Count(lines, Routed)
    decreases |lines|
  {
    if |lines| == 0 then [] else Emit(lines[0]) + Worker(lines[1..])
  }

  /** What routing one line emits: nothing, or its one emission. */
  function Emit(line: string): (es: seq<Emission>)
    ensures |es| == if Routed(line) then 1 else 0
  {
    match Route(line)
    case None => []
    case Some(e) => [e]
  }

  /** The worker distributes over arrival: what two batches emit is what
      each emits, in order. */
  lemma {:induction false} WorkerConcat(a: seq<string>, b: seq<string>)
    ensures Worker(a + b) == Worker(a) + Worker(b)
    decreases |a|
  {
    if |a| > 0 {
      assert (a + b)[0] == a[0] && (a + b)[1..] == a[1..] + b;
      WorkerConcat(a[1..], b);
      var e, x, y := Emit(a[0]), Worker(a[1..]), Worker(b);
      assert Worker(a + b) == e + (x + y);
      assert Worker(a) == e + x;
    } else {
      assert a + b == b;
    }
  }

  // ------------------------------------------------------------ as written

  /** `_emit_by_channel` as written reads `self.system_event` (or
      `globals_event`, `other_event`), attributes that exist on the signal
      bus but not on the listener: every call raises `AttributeError`
      before emitting. `_worker` catches it outside its loop, so the worker
      ends. Returns what was emitted and how many lines were read. */
  function WorkerAsWritten(lines: seq<string>): (r: (seq<Emission>, nat))
    ensures r.0 == []
    ensures r.1 <= |lines|
    ensures forall j :: 0 <= j < r.1 - 1 ==> !Routed(lines[j])
    ensures (forall j :: 0 <= j < |lines| ==> !Routed(lines[j])) ==> r.1 == |lines|
    ensures (exists j :: 0 <= j < |lines| && Routed(lines[j])) ==> 0 < r.1 && Routed(lines[r.1 - 1])
    decreases |lines|
  {
    if |lines| == 0 then ([], 0)
    else if Routed(lines[0]) then ([], 1)
    else
      var (es, n) := WorkerAsWritten(lines[1..]);
      assert forall j :: 0 <= j < |lines| - 1 ==> lines[1..][j] == lines[j + 1];
      (es, n + 1)
  }

  /** As written, nothing is ever emitted, and reading stops at the first
      matching line, whereas the intended worker emits for that line and
      every later one. */
  lemma {:induction false} AsWrittenStopsAtFirstRoute(lines: seq<string>, i: nat)
    requires i < |lines| && Routed(lines[i])
    requires forall j :: 0 <= j < i ==> !Routed(lines[j])
    ensures WorkerAsWritten(lines) == ([], i + 1)
    ensures |Worker(lines)| >= 1
    decreases i
  {
    if i > 0 {
      assert forall j :: 0 <= j < i - 1 ==> lines[1..][j] == lines[j + 1];
      AsWrittenStopsAtFirstRoute(lines[1..], i - 1);
    }
  }

  /** A well-formed line, read with its newline, is routed by its channel
      with the newline stripped. */
  lemma RouteChatLine(stamp: string, channel: string, message: string)
    requires |stamp| == 19 && HasStamp(stamp + " ")
    requires |channel| > 0 && forall k :: 0 <= k < |channel| ==> !IsSpace(channel[k])
    requires |message| > 0 && '\n' !in message && !IsSpace(message[|message| - 1])
    ensures Route(ChatLine(stamp, channel, message, true))
      == Some(Emission(ChannelOf(channel), stamp + " [" + channel + "] " + message))
  {
    ChannelRoundTrip(stamp, channel, message, true);
    var v := stamp + " [" + channel + "] " + message;
    assert ChatLine(stamp, channel, message, true) == v + "\n";
    assert StampDigit(0) && (stamp + " ")[0] == stamp[0];
    assert v[0] == stamp[0] && v[|v| - 1] == message[|message| - 1];
    StripPadded(v, "\n");
  }

  /** A concrete system line: the intended worker emits it on the system
      channel, while the worker as written emits nothing and stops. */
  lemma SystemLineShowsStop(rest: seq<string>)
    ensures var line := ChatLine("2024-05-01 12:00:00", "System", "The resource is depleted", true);
      && Route(line).Some? && Route(line).value.channel == SystemChannel
      && WorkerAsWritten([line] + rest) == ([], 1)
      && |Worker([line] + rest)| >= 1
  {
    ExampleWellFormed();
    RouteChatLine("2024-05-01 12:00:00", "System", "The resource is depleted");
    LowerSystem();
    var line := ChatLine("2024-05-01 12:00:00", "System", "The resource is depleted", true);
    AsWrittenStopsAtFirstRoute([line] + rest, 0);
  }

  lemma ExampleWellFormed()
    ensures HasStamp("2024-05-01 12:00:00" + " ")
    ensures forall k :: 0 <= k < |"System"| ==> !IsSpace("System"[k])
    ensures var m := "The resource is depleted"; '\n' !in m && !IsSpace(m[|m| - 1])
  {
  }

  lemma LowerSystem()
    ensures Lower("System") == "system"
  {
    var l := Lower("System");
    assert l[0] == LowerChar('S') == 's';
    assert l[1] == 'y' && l[2] == 's' && l[3] == 't' && l[4] == 'e' && l[5] == 'm';
  }

  // ------------------------------------------------------------ _on_system

  const DepletedPhrase: string := "resource is depleted"

  /** `SystemEventManager._on_system`: a system line mentioning the depleted
      resource, in any case, is passed on unchanged. */
  function OnSystem(text: string): (r: Option<string>)
    ensures r.Some? <==> exists i :: OccursAt(Lower(text), DepletedPhrase, i)
    ensures r.Some? ==> r.value == text
  {
    if Contains(Lower(text), DepletedPhrase) then Some(text) else None
  }

  /** The phrase written in any case, anywhere in the line, triggers. */
  lemma DepletedAnyCase(pre: string, written: string, post: string)
    requires Lower(written) == DepletedPhrase
    ensures OnSystem(pre + written + post) == Some(pre + written + post)
  {
    var s := pre + written + post;
    assert Lower(s)[|pre|..|pre| + |written|] == Lower(written);
    assert OccursAt(Lower(s), DepletedPhrase, |pre|);
  }
}
