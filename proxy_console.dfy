/**
 * `ProxyConsole` and `createLogFlusher` (packages/shared/src/proxy-console.ts).
 * A proxy patches the six logging methods of a console object so that every
 * call is also recorded, restores them when switched off, and hands the
 * recorded calls out on `flush`. The console is shared with its owner, so it
 * is a class of its own whose method table the proxy rewrites.
 *
 * Forwarding a call to the original console method is output and is not
 * modelled; the argument values are of an arbitrary type `A`, and the
 * formatter `createLogFlusher` receives is a parameter.
 */
module ProxyConsole {
  import opened Wrappers
  import JsStrings

  datatype Level = Trace | Debug | Info | Log | Warn | Error

  /** `LEVELS`, in the order the proxy patches them. */
  const Levels: seq<Level> := [Trace, Debug, Info, Log, Warn, Error]

  lemma LevelsComplete(l: Level)
    ensures l in Levels
  {
  }

  /** What a console method is: one the environment provided, or the recorder a proxy installed for a level. */
  datatype Handler = Native(id: nat) | Recorder(level: Level)

  /** A console object: one method per level. */
  class Console {
    var handlers: map<Level, Handler>

    constructor(handlers: map<Level, Handler>)
      ensures this.handlers == handlers
    {
      this.handlers := handlers;
    }
  }

  predicate Complete(m: map<Level, Handler>) {
    forall l: Level :: l in m
  }

  /** Every level of `m` is the recorder for that level. */
  predicate Patched(m: map<Level, Handler>) {
    forall l: Level :: l in m && m[l] == Recorder(l)
  }

  /** One recorded console call. */
  datatype Call<A> = Call(level: Level, args: seq<A>)

  class ProxyConsole<A> {
    /** `#proxyConsole`: the console object handed to the constructor, patched in place. */
    const target: Console
    /** `#originalConsole`: the methods the console had when the proxy was built. */
    const original: map<Level, Handler>
    var isOn: bool
    var calls: seq<Call<A>>

    /** While on, the console's methods are this proxy's recorders; while off, they are the saved originals. */
    ghost predicate Valid()
      reads this, target
    {
      Complete(original) && (forall l: Level :: original[l].Native?)
      && (if isOn then Patched(target.handlers) else target.handlers == original)
    }

    constructor(console: Console)
      requires Complete(console.handlers) && forall l: Level :: console.handlers[l].Native?
      ensures Valid() && target == console && original == console.handlers
      ensures !isOn && calls == []
    {
      target := console;
      original := console.handlers;
      isOn := false;
      calls := [];
    }

    /** `on`: fails when already on; otherwise installs a recorder for every level. */
    method On() returns (r: Result<(), string>)
      requires Valid()
      modifies this, target
      ensures Valid() && calls == old(calls)
      ensures old(isOn) ==> (r == Failure("Console is already on. It is likely that tests are running in parallel. This is not supported.")
        && isOn && target.handlers == old(target.handlers))
      ensures !old(isOn) ==> r.Success? && isOn && Patched(target.handlers)
    {
      if isOn {
        return Failure("Console is already on. It is likely that tests are running in parallel. This is not supported.");
      }
      isOn := true;
      for i := 0 to |Levels|
        invariant isOn && calls == old(calls) && Complete(target.handlers)
        invariant forall j :: 0 <= j < i ==> target.handlers[Levels[j]] == Recorder(Levels[j])
      {
        var level := Levels[i];
        target.handlers := target.handlers[level := Recorder(level)];
      }
      forall l: Level
        ensures target.handlers[l] == Recorder(l)
      {
        LevelsComplete(l);
      }
      r := Success(());
    }

    /** `off`: a no-op when off; otherwise puts every saved original back. The recorded calls stay. */
    method Off()
      requires Valid()
      modifies this, target
      ensures Valid() && !isOn && calls == old(calls)
      ensures target.handlers == original
    {
      if !isOn {
        return;
      }
      isOn := false;
      for i := 0 to |Levels|
        invariant !isOn && calls == old(calls) && Complete(target.handlers)
        invariant forall j :: 0 <= j < i ==> target.handlers[Levels[j]] == original[Levels[j]]
      {
        var level := Levels[i];
        target.handlers := target.handlers[level := original[level]];
      }
      forall l: Level
        ensures target.handlers[l] == original[l]
      {
        LevelsComplete(l);
      }
    }

    /**
     * A call `console[level](...args)` made by the code under test. While on,
     * the recorder forwards to the original and appends the call; while off,
     * the original method runs and nothing is recorded.
     */
    method ConsoleCall(level: Level, args: seq<A>)
      requires Valid()
      modifies this
      ensures Valid() && isOn == old(isOn)
      ensures calls == old(calls) + (if isOn then [Call(level, args)] else [])
    {
      match target.handlers[level]
      case Recorder(l) =>
        calls := calls + [Call(l, args)];
      case Native(_) =>
    }

    /** `flush`: hands out the recorded calls in order and empties the buffer. */
    method Flush() returns (out: seq<Call<A>>)
      requires Valid()
      modifies this
      ensures Valid() && isOn == old(isOn)
      ensures out == old(calls) && calls == []
    {
      out := calls;
      calls := [];
    }
  }

  /** A log line in the flusher's output. */
  datatype LogEntry = LogEntry(level: Level, msg: string)

  /** The flusher's result: `{}` or `{ logs }`. */
  datatype Flushed = NoLogs | Logs(logs: seq<LogEntry>)

  /** The message of one call: each argument formatted, joined with single spaces. */
  function Message<A>(args: seq<A>, format: A -> string): string {
    JsStrings.Join(seq(|args|, i requires 0 <= i < |args| => format(args[i])), " ")
  }

  /** What the flusher builds from the recorded calls. */
  function LogsOf<A>(calls: seq<Call<A>>, format: A -> string): (r: Flushed)
    ensures r.NoLogs? <==> calls == []
    ensures r.Logs? ==> (|r.logs| == |calls|
      && forall i :: 0 <= i < |calls| ==> r.logs[i].level == calls[i].level && r.logs[i].msg == Message(calls[i].args, format))
  {
    if calls == [] then NoLogs
    else Logs(seq(|calls|, i requires 0 <= i < |calls| => LogEntry(calls[i].level, Message(calls[i].args, format))))
  }

  /**
   * When no formatted argument contains a space, each message splits back
   * on `" "` into exactly the formatted arguments, one per argument.
   */
  lemma MessageSplitsIntoArgs<A>(args: seq<A>, format: A -> string)
    requires |args| >= 1
    requires forall i :: 0 <= i < |args| ==> ' ' !in format(args[i])
    ensures |JsStrings.Split(Message(args, format), ' ')| == |args|
    ensures forall i :: 0 <= i < |args| ==> JsStrings.Split(Message(args, format), ' ')[i] == format(args[i])
  {
    var parts := seq(|args|, i requires 0 <= i < |args| => format(args[i]));
    assert " " == [' '];
    JsStrings.JoinSplit(parts, ' ');
  }

  /** `createLogFlusher(proxy, format)()`: flushes the proxy and turns each call into a log line. */
  method FlushLogs<A>(proxy: ProxyConsole<A>, format: A -> string) returns (r: Flushed)
    requires proxy.Valid()
    modifies proxy
    ensures proxy.Valid() && proxy.isOn == old(proxy.isOn) && proxy.calls == []
    ensures r == LogsOf(old(proxy.calls), format)
  {
    var raw := proxy.Flush();
    r := LogsOf(raw, format);
  }

  /**
   * Two calls recorded while on come out of `flush` in order, a second
   * `flush` returns nothing, a second `on` throws, and after `off` the
   * console's own methods are back and nothing more is recorded.
   */
  method FlushTwice(console: Console, a: int, b: int)
    returns (first: seq<Call<int>>, second: seq<Call<int>>, secondOn: Result<(), string>, afterOff: seq<Call<int>>)
    requires Complete(console.handlers) && forall l: Level :: console.handlers[l].Native?
    modifies console
    ensures first == [Call(Log, [a]), Call(Warn, [b])] && second == []
    ensures secondOn.Failure? && afterOff == []
    ensures console.handlers == old(console.handlers)
  {
    var proxy := new ProxyConsole<int>(console);
    var r := proxy.On();
    proxy.ConsoleCall(Log, [a]);
    proxy.ConsoleCall(Warn, [b]);
    first := proxy.Flush();
    second := proxy.Flush();
    secondOn := proxy.On();
    proxy.Off();
    proxy.ConsoleCall(Log, [a]);
    afterOff := proxy.calls;
  }
}
