/**
 * `MaritimeCloudClientConfiguration`: the mutable builder a client is
 * configured with before it is built. Fields start at their defaults, each
 * setter changes its own field and (except `setAutoConnect`) returns the
 * same object, and listeners accumulate in insertion order. Identities,
 * listeners, broadcast options and position suppliers are opaque values
 * here, told apart by a handle.
 */
module ClientConfiguration {
  import opened Java
  import opened TimeUnits

  /** An actor identity (`MaritimeId`). */
  datatype MaritimeId = MaritimeId(handle: nat)

  /** A connection listener (`MaritimeCloudConnection.Listener`). */
  datatype Listener = Listener(handle: nat)

  /** `BroadcastOptions`: the options object created with the configuration, or one set later. */
  datatype BroadcastOptions = InitialBroadcastOptions | BroadcastOptions(handle: nat)

  /** `Supplier<PositionTime>`: the default supplier answers position (0, 0) at time 0. */
  datatype PositionSupplier = ZeroPositionSupplier | PositionSupplier(handle: nat)

  const DEFAULT_HOST: string := "localhost:43234"

  /** `TimeUnit.SECONDS.toNanos(2)`. */
  const DEFAULT_KEEP_ALIVE_NANOS: Int64 := ToNanos(2, SECONDS)

  /** Two seconds read back in milliseconds is 2000, in minutes 0. */
  lemma DefaultKeepAlive()
    ensures DEFAULT_KEEP_ALIVE_NANOS == 2_000_000_000
    ensures FromNanos(DEFAULT_KEEP_ALIVE_NANOS, MILLISECONDS) == 2000
    ensures FromNanos(DEFAULT_KEEP_ALIVE_NANOS, SECONDS) == 2
    ensures FromNanos(DEFAULT_KEEP_ALIVE_NANOS, MINUTES) == 0
  {
  }

  class Configuration {
    var autoConnect: bool
    var broadcastDefaults: BroadcastOptions
    var id: Option<MaritimeId>
    var keepAliveNanos: Int64
    var listeners: seq<Listener>
    var nodes: string
    var positionSupplier: PositionSupplier

    /** Every field except the identity holds its initial value. */
    predicate HasDefaults()
      reads this
    {
      && autoConnect
      && broadcastDefaults == InitialBroadcastOptions
      && keepAliveNanos == DEFAULT_KEEP_ALIVE_NANOS
      && listeners == []
      && nodes == DEFAULT_HOST
      && positionSupplier == ZeroPositionSupplier
    }

    /** The package-private constructor: defaults plus the given (nullable) identity. */
    constructor (id: Option<MaritimeId>)
      ensures HasDefaults() && this.id == id
      ensures GetKeepAlive(MILLISECONDS) == 2000 && GetKeepAlive(MINUTES) == 0
    {
      autoConnect := true;
      broadcastDefaults := InitialBroadcastOptions;
      this.id := id;
      keepAliveNanos := ToNanos(2, SECONDS);
      listeners := [];
      nodes := DEFAULT_HOST;
      positionSupplier := ZeroPositionSupplier;
      DefaultKeepAlive();
    }

    /** `create()`: a configuration without an identity. */
    static method Create() returns (c: Configuration)
      ensures fresh(c) && c.HasDefaults() && c.id == None
    {
      c := new Configuration(None);
    }

    /** `create(MaritimeId)`. */
    static method CreateWithId(id: Option<MaritimeId>) returns (c: Configuration)
      ensures fresh(c) && c.HasDefaults() && c.id == id
    {
      c := new Configuration(id);
    }

    /** `create(String)`: the identity is parsed by `MaritimeId.create`, passed in as `parse`. */
    static method CreateFromString(s: string, parse: string -> MaritimeId) returns (c: Configuration)
      ensures fresh(c) && c.HasDefaults() && c.id == Some(parse(s))
    {
      c := new Configuration(Some(parse(s)));
    }

    /** `addListener(listener)`: append at the end; null is refused before anything changes. */
    method AddListener(listener: Option<Listener>) returns (r: Result<Configuration, NullPointerException>)
      modifies this`listeners
      ensures listener.Some? ==> r == Success(this) && listeners == old(listeners) + [listener.value]
      ensures listener.None? ==>
        r == Failure(NullPointerException(Some("listener is null"))) && listeners == old(listeners)
    {
      var checked := RequireNonNull(listener, Some("listener is null"));
      if checked.Failure? {
        return Failure(checked.error);
      }
      listeners := listeners + [checked.value];
      r := Success(this);
    }

    /** `build(MaritimeId)`: the identity is overwritten before the client is built. */
    method Build(id: Option<MaritimeId>)
      modifies this`id
      ensures this.id == id
    {
      this.id := id;
    }

    function GetDefaultBroadcastOptions(): BroadcastOptions
      reads this
    {
      broadcastDefaults
    }

    function GetHost(): string
      reads this
    {
      nodes
    }

    function GetId(): Option<MaritimeId>
      reads this
    {
      id
    }

    /** `getKeepAlive(unit)`: the stored nanoseconds in `unit`, truncated toward zero. */
    function GetKeepAlive(unit: TimeUnit): (r: Int64)
      reads this
      ensures keepAliveNanos >= 0 ==>
        0 <= r && r * Scale(unit) <= keepAliveNanos < r * Scale(unit) + Scale(unit)
      ensures keepAliveNanos < 0 ==>
        r <= 0 && r * Scale(unit) - Scale(unit) < keepAliveNanos <= r * Scale(unit)
    {
      FromNanos(keepAliveNanos, unit)
    }

    function GetListeners(): seq<Listener>
      reads this
    {
      listeners
    }

    function GetPositionSupplier(): PositionSupplier
      reads this
    {
      positionSupplier
    }

    function IsAutoConnect(): bool
      reads this
    {
      autoConnect
    }

    /** `setAutoConnect(autoConnect)`: the one setter that returns nothing. */
    method SetAutoConnect(autoConnect: bool)
      modifies this`autoConnect
      ensures this.autoConnect == autoConnect
    {
      this.autoConnect := autoConnect;
    }

    method SetDefaultBroadcastOptions(defaults: Option<BroadcastOptions>)
      returns (r: Result<Configuration, NullPointerException>)
      modifies this`broadcastDefaults
      ensures defaults.Some? ==> r == Success(this) && broadcastDefaults == defaults.value
      ensures defaults.None? ==>
        r == Failure(NullPointerException(None)) && broadcastDefaults == old(broadcastDefaults)
    {
      var checked := RequireNonNull(defaults, None);
      if checked.Failure? {
        return Failure(checked.error);
      }
      broadcastDefaults := checked.value;
      r := Success(this);
    }

    method SetHost(host: Option<string>) returns (r: Result<Configuration, NullPointerException>)
      modifies this`nodes
      ensures host.Some? ==> r == Success(this) && nodes == host.value
      ensures host.None? ==> r == Failure(NullPointerException(None)) && nodes == old(nodes)
    {
      var checked := RequireNonNull(host, None);
      if checked.Failure? {
        return Failure(checked.error);
      }
      nodes := checked.value;
      r := Success(this);
    }

    /** `setId(id)`: unlike the other reference setters, null is accepted. */
    method SetId(id: Option<MaritimeId>) returns (r: Configuration)
      modifies this`id
      ensures r == this && this.id == id
    {
      this.id := id;
      r := this;
    }

    /**
     * `setKeepAlive(time, unit)`: store `unit.toNanos(time)`. Reading back
     * in the same unit gives `time` whenever the nanosecond count fits in a
     * `long`; otherwise the stored value saturates at the `long` bounds.
     */
    method SetKeepAlive(time: Int64, unit: TimeUnit) returns (r: Configuration)
      modifies this`keepAliveNanos
      ensures r == this && keepAliveNanos == ToNanos(time, unit)
      ensures LONG_MIN <= time * Scale(unit) <= LONG_MAX ==> GetKeepAlive(unit) == time
      ensures time * Scale(unit) > LONG_MAX ==> keepAliveNanos == LONG_MAX
      ensures time * Scale(unit) < LONG_MIN ==> keepAliveNanos == LONG_MIN
    {
      keepAliveNanos := ToNanos(time, unit);
      if LONG_MIN <= time * Scale(unit) <= LONG_MAX {
        FromNanosToNanos(time, unit);
      }
      r := this;
    }

    method SetPositionSupplier(supplier: Option<PositionSupplier>)
      returns (r: Result<Configuration, NullPointerException>)
      modifies this`positionSupplier
      ensures supplier.Some? ==> r == Success(this) && positionSupplier == supplier.value
      ensures supplier.None? ==>
        r == Failure(NullPointerException(None)) && positionSupplier == old(positionSupplier)
    {
      var checked := RequireNonNull(supplier, None);
      if checked.Failure? {
        return Failure(checked.error);
      }
      positionSupplier := checked.value;
      r := Success(this);
    }
  }

  /**
   * A configuration built step by step: what a caller can conclude from
   * the contracts above alone.
   */
  method ConfigureExample(a: Listener, b: Listener)
  {
    var c := Configuration.Create();
    assert c.GetKeepAlive(MILLISECONDS) == 2000;
    var r := c.AddListener(Some(a));
    r := c.AddListener(Some(b));
    r := c.AddListener(Some(a));
    assert c.GetListeners() == [a, b, a];
    r := c.AddListener(None);
    assert r.Failure? && c.GetListeners() == [a, b, a];
    var same := c.SetKeepAlive(90, SECONDS);
    assert same == c && c.GetKeepAlive(SECONDS) == 90 && c.GetKeepAlive(MINUTES) == 1;
    r := c.SetHost(None);
    assert c.GetHost() == DEFAULT_HOST;
    c.SetAutoConnect(false);
    assert !c.IsAutoConnect() && c.GetListeners() == [a, b, a];
    c.Build(Some(MaritimeId(7)));
    assert c.GetId() == Some(MaritimeId(7));
  }
}
