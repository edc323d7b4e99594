/** The plugin lifecycle of index.js: the poll-rate clamp and the single
    interval handle that `plugin.start` sets and `plugin.stop` clears, over a
    model of the runtime's table of live intervals. */
module Lifecycle {
  import opened Json

  /** The options the host passes to `plugin.start`. */
  datatype Options = Options(
    apikey: string,
    url: string,
    updaterate: Option<int>,
    boxSize: Option<int>,
    stationID: Option<int>)

  /** The query string `update` appends to the configured URL. */
  const FIXED_QUERY := "?username=AH_3017_A0DC769C&format=1&output=json&compress=0&id=3017"

  /** The smallest rate the plugin polls at, in seconds. */
  const MIN_RATE := 61

  function Max(a: int, b: int): int
  {
    if a >= b then a else b
  }

  /** The polling period in seconds: an absent, zero or at most 60 second
      rate becomes 61. */
  function EffectiveRate(updaterate: Option<int>): (rate: int)
    ensures rate > 60
    ensures updaterate.None? ==> rate == MIN_RATE
    ensures updaterate.Some? ==> rate == Max(updaterate.value, MIN_RATE)
  {
    if updaterate.None? || updaterate.value == 0 || updaterate.value <= 60 then 61
    else updaterate.value
  }

  /** The request URL of one cycle: the configured base URL followed by a
      fixed query that names station 3017, whatever key and station the
      options carry. */
  function RequestUrl(options: Options): (url: string)
    ensures |url| > |options.url| && url[..|options.url|] == options.url
    ensures url[|options.url|..] == FIXED_QUERY
  {
    options.url + FIXED_QUERY
  }

  /** Only the base URL shapes the request; the key and the station ID do not. */
  lemma RequestIgnoresCredentials(a: Options, b: Options)
    requires a.url == b.url
    ensures RequestUrl(a) == RequestUrl(b)
  {
  }

  /** The largest delay, in milliseconds, that the Node.js timer runtime
      honours: a 32-bit signed maximum. */
  const MAX_DELAY := 2147483647

  /** The delay the runtime actually uses for a requested one: a delay
      below 1 ms or above MAX_DELAY is replaced by 1 ms. */
  function TimerDelay(requestedMs: int): (ms: int)
    ensures 1 <= ms <= MAX_DELAY
    ensures ms == requestedMs || ms == 1
    ensures ms == requestedMs <==> 1 <= requestedMs <= MAX_DELAY
  {
    if 1 <= requestedMs <= MAX_DELAY then requestedMs else 1
  }

  /** The period a started plugin polls at, in milliseconds. A rate between
      61 and 2147483 seconds is honoured; a larger rate overflows the
      runtime's limit and the plugin polls every millisecond. */
  lemma PollPeriod(updaterate: Option<int>)
    ensures var seconds := EffectiveRate(updaterate);
      && (seconds <= 2147483 ==> TimerDelay(seconds * 1000) == seconds * 1000)
      && (seconds > 2147483 ==> TimerDelay(seconds * 1000) == 1)
  {
    var seconds := EffectiveRate(updaterate);
    if seconds > 2147483 {
      assert seconds * 1000 >= 2147484 * 1000;
    }
  }

  /** The runtime's table of live intervals (`setInterval`/`clearInterval`):
      handle to the delay in milliseconds the runtime uses. */
  class Timers {
    var live: map<nat, int>
    var next: nat

    ghost predicate Valid()
      reads this
    {
      forall h :: h in live ==> h < next
    }

    constructor ()
      ensures Valid() && live == map[]
    {
      live := map[];
      next := 0;
    }

    /** `setInterval(f, periodMs)`: a new live interval under a fresh handle,
        repeating after the delay the runtime makes of `periodMs`. */
    method SetInterval(periodMs: int) returns (h: nat)
      requires Valid()
      modifies this
      ensures Valid()
      ensures h !in old(live) && live == old(live)[h := TimerDelay(periodMs)]
    {
      h := next;
      live := live[h := TimerDelay(periodMs)];
      next := next + 1;
    }

    /** `clearInterval(h)`: the interval stops; an unknown handle is ignored. */
    method ClearInterval(h: nat)
      requires Valid()
      modifies this
      ensures Valid()
      ensures live == old(live) - {h}
    {
      live := live - {h};
    }
  }

  /** The plugin object with its closure variable `timeout`, None standing
      for `undefined`. */
  class Plugin {
    const timers: Timers
    var timeout: Option<nat>

    ghost predicate Valid()
      reads this, timers
    {
      timers.Valid() && (timeout.Some? ==> timeout.value in timers.live)
    }

    constructor (timers: Timers)
      requires timers.Valid()
      ensures Valid() && this.timers == timers && timeout == None
    {
      this.timers := timers;
      timeout := None;
    }

    /** `plugin.start(options)`: clamp the rate and start a repeating
        interval of that many seconds, keeping its handle. A handle already
        held is overwritten, not cleared. */
    method Start(options: Options)
      requires Valid()
      modifies this, timers
      ensures Valid()
      ensures timeout.Some? && timeout.value !in old(timers.live)
      ensures timers.live == old(timers.live)[timeout.value := TimerDelay(EffectiveRate(options.updaterate) * 1000)]
    {
      var seconds := EffectiveRate(options.updaterate);
      var h := timers.SetInterval(seconds * 1000);
      timeout := Some(h);
    }

    /** `plugin.start(options)` as it is meant to behave: a handle already
        held is cleared first, so the plugin never has more than one live
        interval. */
    method StartClearing(options: Options)
      requires Valid()
      modifies this, timers
      ensures Valid()
      ensures timeout.Some?
      ensures var kept := if old(timeout).Some? then old(timers.live) - {old(timeout).value} else old(timers.live);
        timeout.value !in kept && timers.live == kept[timeout.value := TimerDelay(EffectiveRate(options.updaterate) * 1000)]
    {
      Stop();
      Start(options);
    }

    /** `plugin.stop()`: clear the interval if a handle is held, then forget
        it. With no handle it changes nothing. */
    method Stop()
      requires Valid()
      modifies this, timers
      ensures Valid() && timeout == None
      ensures old(timeout).None? ==> unchanged(timers)
      ensures old(timeout).Some? ==> timers.live == old(timers.live) - {old(timeout).value}
    {
      if timeout.Some? {
        timers.ClearInterval(timeout.value);
        timeout := None;
      }
    }
  }

  /** A start followed by a stop leaves the runtime's intervals as they were,
      whether or not a handle was held before (a held one stays live, as
      `RestartLeaksInterval` shows). */
  method StartThenStop(p: Plugin, options: Options)
    requires p.Valid()
    modifies p, p.timers
    ensures p.Valid() && p.timeout.None?
    ensures p.timers.live == old(p.timers.live)
  {
    p.Start(options);
    p.Stop();
  }

  /** A second stop changes nothing. */
  method StopTwice(p: Plugin)
    requires p.Valid()
    modifies p, p.timers
    ensures p.Valid() && p.timeout.None?
    ensures p.timers.live == old(p.timers.live) - (if old(p.timeout).Some? then {old(p.timeout).value} else {})
  {
    p.Stop();
    ghost var between := p.timers.live;
    p.Stop();
    assert p.timers.live == between;
  }

  /** Starting twice without a stop loses the first handle: after start,
      start, stop, an interval of this plugin is still live and the plugin
      no longer holds a handle to clear it. */
  method RestartLeaksInterval(p: Plugin, options: Options) returns (orphan: nat)
    requires p.Valid() && p.timeout.None?
    modifies p, p.timers
    ensures p.timeout.None?
    ensures orphan !in old(p.timers.live) && orphan in p.timers.live
  {
    p.Start(options);
    orphan := p.timeout.value;
    p.Start(options);
    p.Stop();
  }

  /** With the corrected start, start, start, stop leaves the runtime's
      intervals as they were: the first interval does not survive. */
  method RestartKeepsOneInterval(p: Plugin, options: Options)
    requires p.Valid() && p.timeout.None?
    modifies p, p.timers
    ensures p.Valid() && p.timeout.None?
    ensures p.timers.live == old(p.timers.live)
  {
    ghost var before := p.timers.live;
    p.StartClearing(options);
    p.StartClearing(options);
    assert p.timers.live == before[p.timeout.value := TimerDelay(EffectiveRate(options.updaterate) * 1000)];
    p.Stop();
  }
}
