/**
 * EsAutoConfiguration: start-up resolution of the Elasticsearch client
 * settings (address list, scheme, basic credentials) and of the data-access
 * defaults stored in the global configuration cache.
 *
 * The Elasticsearch client itself is replaced by a ClientSpec, the value
 * that would be handed to RestClient.builder; a thrown exception is a
 * Failure carrying a ConfigError.
 */
module AutoConfig {
  import opened Wrappers
  import opened JavaLang
  import CoreConfig

  // ---------------------------------------------------------------------------
  // Configuration input

  /** The configuration keys the core reads. */
  datatype PropertyKey =
    | Address         // comma-separated host:port list
    | Schema          // http or https
    | Username
    | Password
    | TablePrefix
    | IdType
    | FieldStrategy

  /** The bound configuration: a key that is absent reads as Java null. */
  type Environment = map<PropertyKey, string>

  /**
   * What the core library defines and this file only refers to:
   * BaseEsConstants.DEFAULT_SCHEMA, the constant names of the IdType and
   * FieldStrategy enums, and the field values of a new GlobalConfig.DbConfig.
   */
  datatype LibraryConstants = LibraryConstants(
    defaultSchema: string,
    idTypeNames: set<string>,
    fieldStrategyNames: set<string>,
    dbConfigDefaults: CoreConfig.DbConfig)

  /** BaseEsConstants.COLON, the one-character string ":". */
  const COLON: char := ':'
  const COMMA: char := ','

  function PropertyOf(env: Environment, key: PropertyKey): Option<string> {
    if key in env then Some(env[key]) else None
  }

  /** StringUtils.isEmpty: null or of length 0. */
  predicate IsEmpty(value: Option<string>) {
    value.None? || value.value == ""
  }

  // ---------------------------------------------------------------------------
  // Client settings

  /** HttpHost(hostname, port, scheme). */
  datatype HttpHost = HttpHost(hostName: string, port: Int32, schemeName: string)

  /** UsernamePasswordCredentials, registered for AuthScope.ANY (every host). */
  datatype Credentials = Credentials(username: string, password: string)

  /** What the RestHighLevelClient is built from: the hosts in order, and the credentials, if any. */
  datatype ClientSpec = ClientSpec(hosts: seq<HttpHost>, credentials: Option<Credentials>)

  /** The exceptions start-up configuration can throw. */
  datatype ConfigError =
    | AddressMissing                                        // "please config the es address"
    | AddressWithoutPort                                    // "the address must contains port and separate by ':'"
    | SegmentIndexOutOfBounds(segment: string, index: nat)  // item.split(":")[index] does not exist
    | PortNotInteger(text: string)                          // Integer.parseInt rejects the port text
    | UnknownIdType(name: string)                           // Enum.valueOf(IdType.class, name) finds no constant
    | UnknownFieldStrategy(name: string)                    // Enum.valueOf(FieldStrategy.class, name) finds no constant

  /** The configured schema, or DEFAULT_SCHEMA when it is empty. */
  function ResolveSchema(env: Environment, lib: LibraryConstants): string {
    var schema := PropertyOf(env, Schema);
    if IsEmpty(schema) then lib.defaultSchema else schema.value
  }

  /** The text of an address item before its first ':'. */
  function HostText(item: string): string {
    Before(item, COLON)
  }

  /** The text of an address item between its first and second ':'. */
  function PortText(item: string): string
    requires COLON in item
  {
    Before(After(item, COLON), COLON)
  }

  /** One address item: new HttpHost(item.split(":")[0], Integer.parseInt(item.split(":")[1]), scheme). */
  function ParseSegment(item: string, scheme: string): Result<HttpHost, ConfigError> {
    var parts := Split(item, COLON);
    if |parts| == 0 then Failure(SegmentIndexOutOfBounds(item, 0))
    else if |parts| == 1 then Failure(SegmentIndexOutOfBounds(item, 1))
    else
      match ParseInt(parts[1])
      case None => Failure(PortNotInteger(parts[1]))
      case Some(port) => Success(HttpHost(parts[0], port, scheme))
  }

  /**
   * An item yields a host exactly when it holds a ':' and the text between
   * the first and second ':' is an int; the host name is the untrimmed text
   * before the first ':', and anything after a second ':' is ignored.
   * An item with no ':' fails on index 1; an item of ':' only fails on
   * index 0; an item with a single ':' at its end fails on index 1; any other
   * item with a ':' fails on a port text that parseInt rejects.
   */
  lemma SegmentByFirstColon(item: string, scheme: string)
    ensures ParseSegment(item, scheme).Success? <==> COLON in item && ParseInt(PortText(item)).Some?
    ensures ParseSegment(item, scheme).Success? ==>
      ParseSegment(item, scheme).value == HttpHost(HostText(item), ParseInt(PortText(item)).value, scheme)
    ensures COLON !in item ==> ParseSegment(item, scheme) == Failure(SegmentIndexOutOfBounds(item, 1))
    ensures Split(item, COLON) == [] ==> ParseSegment(item, scheme) == Failure(SegmentIndexOutOfBounds(item, 0))
    ensures |Split(item, COLON)| == 1 ==> ParseSegment(item, scheme) == Failure(SegmentIndexOutOfBounds(item, 1))
    ensures COLON in item && |Split(item, COLON)| >= 2 && ParseInt(PortText(item)).None? ==>
      ParseSegment(item, scheme) == Failure(PortNotInteger(PortText(item)))
    ensures ParseSegment(item, scheme).Failure? ==>
      ParseSegment(item, scheme).error.SegmentIndexOutOfBounds? || ParseSegment(item, scheme).error.PortNotInteger?
  {
    var parts, ps := Split(item, COLON), Pieces(item, COLON);
    if COLON in item {
      PiecesByFirstSeparator(item, COLON);
      PiecesByFirstSeparator(After(item, COLON), COLON);
      assert ps[0] == HostText(item);
      assert ps[1] == PortText(item);
      if |parts| >= 2 {
        assert parts[0] == ps[0] && parts[1] == ps[1];
      }
    }
  }

  /** The host name followed by ':' and the decimal port. */
  function Render(host: string, port: Int32): string {
    host + [COLON] + FormatInt(port)
  }

  /** An item written as host:port with a host free of ':' reads back as that host and port. */
  lemma ParseRenderedSegment(host: string, port: Int32, scheme: string)
    requires COLON !in host
    ensures ParseSegment(Render(host, port), scheme) == Success(HttpHost(host, port, scheme))
  {
    var item := Render(host, port);
    var i := FirstIndex(item, COLON);
    assert item[|host|] == COLON;
    assert HostText(item) == host;
    assert After(item, COLON) == FormatInt(port);
    FormatIntHasNoSeparator(port, COLON);
    assert PortText(item) == FormatInt(port);
    ParseFormatInt(port);
    SegmentByFirstColon(item, scheme);
  }

  /**
   * Arrays.stream(items).forEach(item -> hostList.add(build(item))): the
   * hosts in item order, or the exception of the first item whose host
   * cannot be built (forEach stops there).
   */
  function CollectHosts(items: seq<string>, build: string -> Result<HttpHost, ConfigError>): Result<seq<HttpHost>, ConfigError>
    decreases |items|
  {
    if |items| == 0 then Success([])
    else
      match CollectHosts(items[..|items| - 1], build)
      case Failure(e) => Failure(e)
      case Success(hosts) =>
        match build(items[|items| - 1])
        case Failure(e) => Failure(e)
        case Success(host) => Success(hosts + [host])
  }

  /** Collected hosts: one per item. */
  lemma {:induction false} CollectHostsLength(items: seq<string>, build: string -> Result<HttpHost, ConfigError>)
    requires CollectHosts(items, build).Success?
    ensures |CollectHosts(items, build).value| == |items|
    decreases |items|
  {
    if |items| > 0 {
      CollectHostsLength(items[..|items| - 1], build);
    }
  }

  /** Collected host k is what item k builds. */
  lemma {:induction false} CollectHostsAt(items: seq<string>, build: string -> Result<HttpHost, ConfigError>, k: nat)
    requires CollectHosts(items, build).Success? && k < |items|
    ensures |CollectHosts(items, build).value| == |items|
      && build(items[k]) == Success(CollectHosts(items, build).value[k])
    decreases |items|
  {
    var n := |items| - 1;
    var init := items[..n];
    CollectHostsLength(items, build);
    CollectHostsLength(init, build);
    if k < n {
      CollectHostsAt(init, build, k);
      assert init[k] == items[k];
    }
  }

  /** When every item builds a host, collecting succeeds. */
  lemma {:induction false} CollectHostsAllBuilt(items: seq<string>, build: string -> Result<HttpHost, ConfigError>)
    requires forall k :: 0 <= k < |items| ==> build(items[k]).Success?
    ensures CollectHosts(items, build).Success?
    decreases |items|
  {
    if |items| > 0 {
      var init := items[..|items| - 1];
      assert forall k :: 0 <= k < |init| ==> init[k] == items[k];
      CollectHostsAllBuilt(init, build);
    }
  }

  /** A failed collection fails with the error of an item all of whose predecessors built a host. */
  lemma {:induction false} CollectHostsFirstFailure(items: seq<string>, build: string -> Result<HttpHost, ConfigError>)
    requires CollectHosts(items, build).Failure?
    ensures exists k ::
      && 0 <= k < |items|
      && build(items[k]) == Failure(CollectHosts(items, build).error)
      && forall j :: 0 <= j < k ==> build(items[j]).Success?
    decreases |items|
  {
    var n := |items| - 1;
    var init := items[..n];
    assert forall j :: 0 <= j < n ==> init[j] == items[j];
    var e := CollectHosts(items, build).error;
    if CollectHosts(init, build).Failure? {
      CollectHostsFirstFailure(init, build);
      var k :| 0 <= k < n && build(init[k]) == Failure(e) && forall j :: 0 <= j < k ==> build(init[j]).Success?;
      assert build(items[k]) == Failure(e);
    } else {
      forall j | 0 <= j < n ensures build(items[j]).Success? {
        CollectHostsAt(init, build, j);
      }
      assert build(items[n]) == Failure(e);
    }
  }

  /** Once a prefix of the items fails, the whole collection fails the same way. */
  lemma {:induction false} CollectHostsFailureStops(items: seq<string>, build: string -> Result<HttpHost, ConfigError>, m: nat)
    requires 0 < m <= |items|
    requires CollectHosts(items[..m], build).Failure?
    ensures CollectHosts(items, build) == CollectHosts(items[..m], build)
    decreases |items| - m
  {
    if m < |items| {
      assert items[..m + 1][..m] == items[..m];
      CollectHostsFailureStops(items, build, m + 1);
    } else {
      assert items[..m] == items;
    }
  }

  /** The host of one address item, with the resolved scheme. */
  function HostBuilder(scheme: string): string -> Result<HttpHost, ConfigError> {
    item => ParseSegment(item, scheme)
  }

  /** The hosts of a list of address items, in order, or the first item's exception. */
  function ParseHosts(items: seq<string>, scheme: string): Result<seq<HttpHost>, ConfigError> {
    CollectHosts(items, HostBuilder(scheme))
  }

  /** Item k is the first one that fails, and it fails with e. */
  ghost predicate FailsFirstAt(items: seq<string>, scheme: string, k: int, e: ConfigError) {
    && 0 <= k < |items|
    && ParseSegment(items[k], scheme) == Failure(e)
    && forall j :: 0 <= j < k ==> ParseSegment(items[j], scheme).Success?
  }

  /** One host per item, in item order, each the item's own host. */
  ghost predicate HostsMatchItems(items: seq<string>, scheme: string, hosts: seq<HttpHost>) {
    && |hosts| == |items|
    && forall k :: 0 <= k < |items| ==> ParseSegment(items[k], scheme) == Success(hosts[k])
  }

  /**
   * The host list succeeds exactly when every item does, and then has one
   * host per item, in item order.
   */
  lemma ParseHostsSucceeds(items: seq<string>, scheme: string)
    ensures ParseHosts(items, scheme).Success? ==> HostsMatchItems(items, scheme, ParseHosts(items, scheme).value)
    ensures (forall k :: 0 <= k < |items| ==> ParseSegment(items[k], scheme).Success?) ==>
      ParseHosts(items, scheme).Success?
  {
    var build := HostBuilder(scheme);
    if ParseHosts(items, scheme).Success? {
      CollectHostsLength(items, build);
      forall k | 0 <= k < |items|
        ensures ParseSegment(items[k], scheme) == Success(ParseHosts(items, scheme).value[k])
      {
        CollectHostsAt(items, build, k);
      }
    }
    if forall k :: 0 <= k < |items| ==> ParseSegment(items[k], scheme).Success? {
      assert forall k :: 0 <= k < |items| ==> build(items[k]) == ParseSegment(items[k], scheme);
      CollectHostsAllBuilt(items, build);
    }
  }

  /** A failing host list reports the first failing item. */
  lemma ParseHostsFirstFailure(items: seq<string>, scheme: string)
    requires ParseHosts(items, scheme).Failure?
    ensures exists k :: FailsFirstAt(items, scheme, k, ParseHosts(items, scheme).error)
  {
    var build := HostBuilder(scheme);
    var e := ParseHosts(items, scheme).error;
    CollectHostsFirstFailure(items, build);
    var k :| 0 <= k < |items| && build(items[k]) == Failure(e) && forall j :: 0 <= j < k ==> build(items[j]).Success?;
    assert FailsFirstAt(items, scheme, k, e);
  }

  /** Both facts about the host list together. */
  lemma ParseHostsSpec(items: seq<string>, scheme: string)
    ensures ParseHosts(items, scheme).Success? <==>
      forall k :: 0 <= k < |items| ==> ParseSegment(items[k], scheme).Success?
    ensures ParseHosts(items, scheme).Success? ==> HostsMatchItems(items, scheme, ParseHosts(items, scheme).value)
    ensures ParseHosts(items, scheme).Failure? ==>
      exists k :: FailsFirstAt(items, scheme, k, ParseHosts(items, scheme).error)
  {
    ParseHostsSucceeds(items, scheme);
    if ParseHosts(items, scheme).Failure? {
      ParseHostsFirstFailure(items, scheme);
    }
  }

  /** Once a prefix of the items fails, the whole list fails the same way. */
  lemma ParseHostsFailureStops(items: seq<string>, scheme: string, m: nat)
    requires 0 < m <= |items|
    requires ParseHosts(items[..m], scheme).Failure?
    ensures ParseHosts(items, scheme) == ParseHosts(items[..m], scheme)
  {
    CollectHostsFailureStops(items, HostBuilder(scheme), m);
  }

  /** Credentials are attached only when both username and password are non-empty. */
  function ResolveCredentials(env: Environment): Option<Credentials> {
    var username, password := PropertyOf(env, Username), PropertyOf(env, Password);
    if !IsEmpty(username) && !IsEmpty(password) then Some(Credentials(username.value, password.value))
    else None
  }

  /** The address items: address.split(","). */
  function AddressItems(address: string): seq<string> {
    Split(address, COMMA)
  }

  /** restHighLevelClient, as a value: the client settings, or the exception it throws. */
  function ResolveClient(env: Environment, lib: LibraryConstants): Result<ClientSpec, ConfigError> {
    var address := PropertyOf(env, Address);
    if IsEmpty(address) then Failure(AddressMissing)
    else if COLON !in address.value then Failure(AddressWithoutPort)
    else
      match ParseHosts(AddressItems(address.value), ResolveSchema(env, lib))
      case Failure(e) => Failure(e)
      case Success(hosts) => Success(ClientSpec(hosts, ResolveCredentials(env)))
  }

  /** A failure past the two address checks is the failure of the first bad item. */
  lemma FirstBadItemReported(env: Environment, lib: LibraryConstants)
    requires !IsEmpty(PropertyOf(env, Address)) && COLON in env[Address]
    requires ResolveClient(env, lib).Failure?
    ensures exists k :: FailsFirstAt(AddressItems(env[Address]), ResolveSchema(env, lib), k, ResolveClient(env, lib).error)
  {
    ParseHostsSpec(AddressItems(env[Address]), ResolveSchema(env, lib));
  }

  /** The item-level errors are never the address-level ones. */
  lemma ItemErrorsAreNotAddressErrors(env: Environment, lib: LibraryConstants)
    requires !IsEmpty(PropertyOf(env, Address)) && COLON in env[Address]
    ensures ResolveClient(env, lib).Failure? ==>
      ResolveClient(env, lib).error.SegmentIndexOutOfBounds? || ResolveClient(env, lib).error.PortNotInteger?
  {
    if ResolveClient(env, lib).Failure? {
      FirstBadItemReported(env, lib);
      var items, scheme := AddressItems(env[Address]), ResolveSchema(env, lib);
      var k :| FailsFirstAt(items, scheme, k, ResolveClient(env, lib).error);
      SegmentByFirstColon(items[k], scheme);
    }
  }

  /** An absent or empty address, and only that, fails with "please config the es address". */
  lemma MissingAddressRejected(env: Environment, lib: LibraryConstants)
    ensures ResolveClient(env, lib) == Failure(AddressMissing) <==> IsEmpty(PropertyOf(env, Address))
  {
    if !IsEmpty(PropertyOf(env, Address)) && COLON in env[Address] {
      ItemErrorsAreNotAddressErrors(env, lib);
    }
  }

  /** A non-empty address with no ':' anywhere, and only that, fails with "must contains port". */
  lemma AddressWithoutColonRejected(env: Environment, lib: LibraryConstants)
    ensures ResolveClient(env, lib) == Failure(AddressWithoutPort)
        <==> !IsEmpty(PropertyOf(env, Address)) && COLON !in env[Address]
  {
    if !IsEmpty(PropertyOf(env, Address)) && COLON in env[Address] {
      ItemErrorsAreNotAddressErrors(env, lib);
    }
  }

  /**
   * The ':' check is on the whole address: once it passes, an item with no
   * ':' that follows only good items fails on item.split(":")[1].
   */
  lemma ItemWithoutColonFailsOnIndex(env: Environment, lib: LibraryConstants, k: nat)
    requires !IsEmpty(PropertyOf(env, Address)) && COLON in env[Address]
    requires k < |AddressItems(env[Address])| && COLON !in AddressItems(env[Address])[k]
    requires forall j :: 0 <= j < k ==> ParseSegment(AddressItems(env[Address])[j], ResolveSchema(env, lib)).Success?
    ensures ResolveClient(env, lib) == Failure(SegmentIndexOutOfBounds(AddressItems(env[Address])[k], 1))
  {
    var items, scheme := AddressItems(env[Address]), ResolveSchema(env, lib);
    SegmentByFirstColon(items[k], scheme);
    ParseHostsSpec(items, scheme);
    if ResolveClient(env, lib).Failure? {
      var m :| FailsFirstAt(items, scheme, m, ResolveClient(env, lib).error);
    }
  }

  /**
   * The ':' check is on the whole address: an address such as "a:1,b" (a
   * good host:port item, then a non-empty item with no ':') passes it and
   * then fails on the second item's split(":")[1].
   */
  lemma ColonCheckIsOnWholeAddress(env: Environment, lib: LibraryConstants, host: string, port: Int32, item: string)
    requires COLON !in host && COMMA !in host
    requires item != [] && COLON !in item && COMMA !in item
    requires PropertyOf(env, Address) == Some(Render(host, port) + [COMMA] + item)
    ensures ResolveClient(env, lib) == Failure(SegmentIndexOutOfBounds(item, 1))
  {
    var first := Render(host, port);
    var items := [first, item];
    FormatIntHasNoSeparator(port, COMMA);
    assert COMMA !in first;
    assert Join(items, COMMA) == env[Address];
    PiecesJoin(items, COMMA);
    assert env[Address][|first|] == COMMA;
    assert AddressItems(env[Address]) == items;
    assert first[|host|] == COLON;
    ParseRenderedSegment(host, port, ResolveSchema(env, lib));
    ItemWithoutColonFailsOnIndex(env, lib, 1);
  }

  /** Resolution succeeds exactly when the address passes its checks and every item has an int port. */
  lemma ResolveSucceedsIff(env: Environment, lib: LibraryConstants)
    ensures ResolveClient(env, lib).Success? <==>
      && !IsEmpty(PropertyOf(env, Address))
      && COLON in env[Address]
      && forall item :: item in AddressItems(env[Address]) ==> COLON in item && ParseInt(PortText(item)).Some?
  {
    if !IsEmpty(PropertyOf(env, Address)) && COLON in env[Address] {
      var items, scheme := AddressItems(env[Address]), ResolveSchema(env, lib);
      ParseHostsSpec(items, scheme);
      forall k | 0 <= k < |items| {
        SegmentByFirstColon(items[k], scheme);
      }
    }
  }

  /**
   * On success there is one host per address item, in the same order,
   * never none: host k is the text of item k before its first ':', its port
   * the int between the first and second ':', and its scheme the resolved one.
   */
  lemma HostsFollowAddressItems(env: Environment, lib: LibraryConstants)
    requires ResolveClient(env, lib).Success?
    ensures Address in env
    ensures var items, hosts := AddressItems(env[Address]), ResolveClient(env, lib).value.hosts;
      && |hosts| == |items| >= 1
      && forall k :: 0 <= k < |items| ==>
           && COLON in items[k]
           && hosts[k].hostName == HostText(items[k])
           && ParseInt(PortText(items[k])) == Some(hosts[k].port)
           && hosts[k].schemeName == ResolveSchema(env, lib)
  {
    var items, scheme := AddressItems(env[Address]), ResolveSchema(env, lib);
    ParseHostsSpec(items, scheme);
    forall k | 0 <= k < |items| {
      SegmentByFirstColon(items[k], scheme);
    }
    SplitEmptyIff(env[Address], COMMA);
  }

  /** Every host carries the configured schema, or DEFAULT_SCHEMA when that is empty. */
  lemma SchemeIsUniform(env: Environment, lib: LibraryConstants)
    requires ResolveClient(env, lib).Success?
    ensures forall h :: h in ResolveClient(env, lib).value.hosts ==>
      h.schemeName == (if IsEmpty(PropertyOf(env, Schema)) then lib.defaultSchema else env[Schema])
  {
    HostsFollowAddressItems(env, lib);
  }

  /** Credentials are attached if and only if username and password are both non-empty. */
  lemma CredentialsIffBothGiven(env: Environment, lib: LibraryConstants)
    requires ResolveClient(env, lib).Success?
    ensures var creds := ResolveClient(env, lib).value.credentials;
      && (creds.Some? <==> !IsEmpty(PropertyOf(env, Username)) && !IsEmpty(PropertyOf(env, Password)))
      && (creds.Some? ==> creds.value == Credentials(env[Username], env[Password]))
  {
  }

  /** Username and password change nothing but the credentials: errors and hosts stay the same. */
  lemma CredentialsDoNotAffectHosts(env1: Environment, env2: Environment, lib: LibraryConstants)
    requires PropertyOf(env1, Address) == PropertyOf(env2, Address)
    requires PropertyOf(env1, Schema) == PropertyOf(env2, Schema)
    ensures ResolveClient(env1, lib).Success? <==> ResolveClient(env2, lib).Success?
    ensures ResolveClient(env1, lib).Failure? ==> ResolveClient(env1, lib) == ResolveClient(env2, lib)
    ensures ResolveClient(env1, lib).Success? ==>
      ResolveClient(env1, lib).value.hosts == ResolveClient(env2, lib).value.hosts
  {
  }

  /** A host name and a port, as written in the address. */
  datatype Endpoint = Endpoint(host: string, port: Int32)

  /** An endpoint can be written unambiguously when its host holds neither ':' nor ','. */
  predicate Writable(e: Endpoint) {
    COLON !in e.host && COMMA !in e.host
  }

  function RenderedItems(endpoints: seq<Endpoint>): seq<string> {
    seq(|endpoints|, k requires 0 <= k < |endpoints| => Render(endpoints[k].host, endpoints[k].port))
  }

  /** The address written from a non-empty list of endpoints: "h1:p1,h2:p2,...". */
  function RenderAddress(endpoints: seq<Endpoint>): string
    requires |endpoints| >= 1
  {
    Join(RenderedItems(endpoints), COMMA)
  }

  /** A written address passes the ':' check and splits back into its items. */
  lemma SplitRenderedAddress(endpoints: seq<Endpoint>)
    requires |endpoints| >= 1
    requires forall k :: 0 <= k < |endpoints| ==> Writable(endpoints[k])
    ensures COLON in RenderAddress(endpoints)
    ensures AddressItems(RenderAddress(endpoints)) == RenderedItems(endpoints)
  {
    var items, address := RenderedItems(endpoints), RenderAddress(endpoints);
    forall k | 0 <= k < |items| ensures COMMA !in items[k] {
      FormatIntHasNoSeparator(endpoints[k].port, COMMA);
    }
    PiecesJoin(items, COMMA);
    var ps := Pieces(address, COMMA);
    if |items| == 1 {
      assert address == items[0];
    } else {
      assert address == items[0] + [COMMA] + Join(items[1..], COMMA);
    }
    assert address[|endpoints[0].host|] == COLON;
    var split := AddressItems(address);
    assert |items[|items| - 1]| > 0;
    assert split == items;
  }

  /**
   * Writing endpoints as "h1:p1,h2:p2,..." and resolving the result gives
   * back the same hosts and ports, in the same order, all with the resolved
   * scheme.
   */
  lemma AddressRoundTrip(endpoints: seq<Endpoint>, env: Environment, lib: LibraryConstants)
    requires |endpoints| >= 1
    requires forall k :: 0 <= k < |endpoints| ==> Writable(endpoints[k])
    requires PropertyOf(env, Address) == Some(RenderAddress(endpoints))
    ensures ResolveClient(env, lib).Success?
    ensures var hosts := ResolveClient(env, lib).value.hosts;
      && |hosts| == |endpoints|
      && forall k :: 0 <= k < |endpoints| ==>
           hosts[k] == HttpHost(endpoints[k].host, endpoints[k].port, ResolveSchema(env, lib))
    ensures ResolveClient(env, lib).value.credentials == ResolveCredentials(env)
  {
    var scheme := ResolveSchema(env, lib);
    var items := RenderedItems(endpoints);
    SplitRenderedAddress(endpoints);
    forall k | 0 <= k < |items|
      ensures ParseSegment(items[k], scheme) == Success(HttpHost(endpoints[k].host, endpoints[k].port, scheme))
    {
      ParseRenderedSegment(endpoints[k].host, endpoints[k].port, scheme);
    }
    ParseHostsSucceeds(items, scheme);
  }

  // ---------------------------------------------------------------------------
  // Data-access defaults

  /** Enum.valueOf(E.class, raw.toUpperCase(Locale.ROOT)). */
  function ResolveEnum(names: set<string>, raw: string): Option<string> {
    EnumValueOf(names, ToUpperCase(raw))
  }

  /**
   * The constant found is the enum constant with no lower-case letter that
   * equals the value ignoring case; there is no other way to find one.
   */
  lemma EnumResolvesToMatchingConstant(names: set<string>, raw: string, name: string)
    ensures ResolveEnum(names, raw) == Some(name) <==>
      name in names && HasNoLowerCase(name) && EqualsIgnoreCase(name, raw)
  {
    ToUpperCaseIdempotent(raw);
    if ResolveEnum(names, raw) == Some(name) {
      ToUpperCaseIgnoresCase(name, raw);
    }
    if name in names && HasNoLowerCase(name) && EqualsIgnoreCase(name, raw) {
      ToUpperCaseIgnoresCase(name, raw);
      ToUpperCaseKeepsUpper(name);
    }
  }

  /** Values that differ only in letter case resolve alike ("auto" and "AUTO"). */
  lemma EnumResolutionIgnoresCase(names: set<string>, a: string, b: string)
    requires EqualsIgnoreCase(a, b)
    ensures ResolveEnum(names, a) == ResolveEnum(names, b)
  {
    ToUpperCaseIgnoresCase(a, b);
  }

  /**
   * afterPropertiesSet, as a value: a fresh DbConfig with each present key
   * applied (the table prefix verbatim, the two enums upper-cased and looked
   * up), or the exception of the first enum value that names no constant.
   */
  function ResolveDbConfig(env: Environment, lib: LibraryConstants): Result<CoreConfig.DbConfig, ConfigError> {
    var defaults := lib.dbConfigDefaults;
    var idType := PropertyOf(env, IdType);
    var fieldStrategy := PropertyOf(env, FieldStrategy);
    if idType.Some? && ResolveEnum(lib.idTypeNames, idType.value).None? then
      Failure(UnknownIdType(ToUpperCase(idType.value)))
    else if fieldStrategy.Some? && ResolveEnum(lib.fieldStrategyNames, fieldStrategy.value).None? then
      Failure(UnknownFieldStrategy(ToUpperCase(fieldStrategy.value)))
    else
      Success(CoreConfig.DbConfig(
        if TablePrefix in env then env[TablePrefix] else defaults.tablePrefix,
        if idType.Some? then CoreConfig.IdType(ResolveEnum(lib.idTypeNames, idType.value).value)
        else defaults.idType,
        if fieldStrategy.Some? then CoreConfig.FieldStrategy(ResolveEnum(lib.fieldStrategyNames, fieldStrategy.value).value)
        else defaults.fieldStrategy))
  }

  /**
   * Each absent key leaves its field at the built-in default, whatever the
   * other keys hold; with none of the three keys set the result is the
   * defaults themselves.
   */
  lemma AbsentKeysKeepDefaults(env: Environment, lib: LibraryConstants)
    ensures ResolveDbConfig(env, lib).Success? ==>
      var db, defaults := ResolveDbConfig(env, lib).value, lib.dbConfigDefaults;
      && (TablePrefix !in env ==> db.tablePrefix == defaults.tablePrefix)
      && (IdType !in env ==> db.idType == defaults.idType)
      && (FieldStrategy !in env ==> db.fieldStrategy == defaults.fieldStrategy)
    ensures TablePrefix !in env && IdType !in env && FieldStrategy !in env ==>
      ResolveDbConfig(env, lib) == Success(lib.dbConfigDefaults)
  {
  }

  /**
   * A present table prefix, even an empty one, is copied verbatim and never
   * causes a failure; everything else comes out as without the key.
   */
  lemma TablePrefixCopiedWhenPresent(env: Environment, lib: LibraryConstants, prefix: string)
    ensures ResolveDbConfig(env[TablePrefix := prefix], lib) ==
      match ResolveDbConfig(env - {TablePrefix}, lib)
      case Success(db) => Success(db.(tablePrefix := prefix))
      case Failure(e) => Failure(e)
  {
    var with, without := env[TablePrefix := prefix], env - {TablePrefix};
    assert PropertyOf(with, IdType) == PropertyOf(without, IdType);
    assert PropertyOf(with, FieldStrategy) == PropertyOf(without, FieldStrategy);
  }

  /**
   * An id type or field strategy value resolves to the constant that equals
   * it ignoring case (an absent key keeps the default); a value that names
   * no constant fails, the id type being checked first.
   */
  lemma EnumKeysResolved(env: Environment, lib: LibraryConstants)
    ensures var idType, fieldStrategy := PropertyOf(env, IdType), PropertyOf(env, FieldStrategy);
      var idOk := idType.None? || exists n :: n in lib.idTypeNames && HasNoLowerCase(n) && EqualsIgnoreCase(n, idType.value);
      var fieldOk := fieldStrategy.None? ||
        exists n :: n in lib.fieldStrategyNames && HasNoLowerCase(n) && EqualsIgnoreCase(n, fieldStrategy.value);
      && (ResolveDbConfig(env, lib).Success? <==> idOk && fieldOk)
      && (!idOk ==> ResolveDbConfig(env, lib) == Failure(UnknownIdType(ToUpperCase(idType.value))))
      && (idOk && !fieldOk ==> ResolveDbConfig(env, lib) == Failure(UnknownFieldStrategy(ToUpperCase(fieldStrategy.value))))
      && (ResolveDbConfig(env, lib).Success? ==>
            var db := ResolveDbConfig(env, lib).value;
            && (idType.None? ==> db.idType == lib.dbConfigDefaults.idType)
            && (idType.Some? ==>
                  db.idType.name in lib.idTypeNames && db.idType.name == ToUpperCase(idType.value)
                  && EqualsIgnoreCase(db.idType.name, idType.value))
            && (fieldStrategy.None? ==> db.fieldStrategy == lib.dbConfigDefaults.fieldStrategy)
            && (fieldStrategy.Some? ==>
                  db.fieldStrategy.name in lib.fieldStrategyNames && db.fieldStrategy.name == ToUpperCase(fieldStrategy.value)
                  && EqualsIgnoreCase(db.fieldStrategy.name, fieldStrategy.value)))
  {
    var idType, fieldStrategy := PropertyOf(env, IdType), PropertyOf(env, FieldStrategy);
    if idType.Some? {
      var raw := idType.value;
      EnumResolvesToMatchingConstant(lib.idTypeNames, raw, ToUpperCase(raw));
      forall n | n in lib.idTypeNames && HasNoLowerCase(n) && EqualsIgnoreCase(n, raw)
        ensures ResolveEnum(lib.idTypeNames, raw).Some?
      {
        EnumResolvesToMatchingConstant(lib.idTypeNames, raw, n);
      }
    }
    if fieldStrategy.Some? {
      var raw := fieldStrategy.value;
      EnumResolvesToMatchingConstant(lib.fieldStrategyNames, raw, ToUpperCase(raw));
      forall n | n in lib.fieldStrategyNames && HasNoLowerCase(n) && EqualsIgnoreCase(n, raw)
        ensures ResolveEnum(lib.fieldStrategyNames, raw).Some?
      {
        EnumResolvesToMatchingConstant(lib.fieldStrategyNames, raw, n);
      }
    }
  }

  /** Rewriting an id type or field strategy value in another letter case changes nothing. */
  lemma EnumKeysIgnoreCase(env: Environment, lib: LibraryConstants, key: PropertyKey, value: string)
    requires key == IdType || key == FieldStrategy
    requires key in env && EqualsIgnoreCase(env[key], value)
    ensures ResolveDbConfig(env[key := value], lib) == ResolveDbConfig(env, lib)
  {
    ToUpperCaseIgnoresCase(env[key], value);
    var env' := env[key := value];
    assert PropertyOf(env', TablePrefix) == PropertyOf(env, TablePrefix);
    if key == IdType {
      assert PropertyOf(env', FieldStrategy) == PropertyOf(env, FieldStrategy);
    } else {
      assert PropertyOf(env', IdType) == PropertyOf(env, IdType);
    }
  }

  // ---------------------------------------------------------------------------
  // The configuration object

  class EsAutoConfiguration {
    var environment: Environment
    const library: LibraryConstants

    constructor (library: LibraryConstants)
      ensures this.library == library && environment == map[]
    {
      this.library := library;
      environment := map[];
    }

    /** EnvironmentAware.setEnvironment. */
    method SetEnvironment(environment: Environment)
      modifies this
      ensures this.environment == environment
    {
      this.environment := environment;
    }

    /**
     * restHighLevelClient: checks the address, then adds one host per
     * address item, in order, and attaches credentials when both parts are given.
     */
    method RestHighLevelClient() returns (client: Result<ClientSpec, ConfigError>)
      ensures client == ResolveClient(environment, library)
    {
      var address := PropertyOf(environment, Address);
      if IsEmpty(address) {
        return Failure(AddressMissing);
      }
      if COLON !in address.value {
        return Failure(AddressWithoutPort);
      }
      var schema := ResolveSchema(environment, library);
      var items := AddressItems(address.value);
      var hostList: seq<HttpHost> := [];
      var i := 0;
      while i < |items|
        invariant 0 <= i <= |items|
        invariant ParseHosts(items[..i], schema) == Success(hostList)
      {
        var host := ParseSegment(items[i], schema);
        assert items[..i + 1][..i] == items[..i];
        if host.Failure? {
          ParseHostsFailureStops(items, schema, i + 1);
          return Failure(host.error);
        }
        hostList := hostList + [host.value];
        i := i + 1;
      }
      assert items[..i] == items;
      var username, password := PropertyOf(environment, Username), PropertyOf(environment, Password);
      var credentials: Option<Credentials> := None;
      if !IsEmpty(username) && !IsEmpty(password) {
        credentials := Some(Credentials(username.value, password.value));
      }
      client := Success(ClientSpec(hostList, credentials));
    }

    /**
     * afterPropertiesSet: builds a fresh DbConfig through its setters and
     * stores it in the cache, replacing what was there; an unknown enum
     * value throws before anything is stored.
     */
    method AfterPropertiesSet(cache: CoreConfig.GlobalConfigCache) returns (thrown: Option<ConfigError>)
      modifies cache
      ensures match ResolveDbConfig(environment, library)
        case Success(db) => thrown == None && cache.globalConfig == Some(CoreConfig.GlobalConfig(db))
        case Failure(e) => thrown == Some(e) && cache.globalConfig == old(cache.globalConfig)
    {
      var dbConfig := library.dbConfigDefaults;
      if TablePrefix in environment {
        dbConfig := dbConfig.(tablePrefix := environment[TablePrefix]);
      }
      if IdType in environment {
        var raw := environment[IdType];
        var idType := ResolveEnum(library.idTypeNames, raw);
        if idType.None? {
          return Some(UnknownIdType(ToUpperCase(raw)));
        }
        dbConfig := dbConfig.(idType := CoreConfig.IdType(idType.value));
      }
      if FieldStrategy in environment {
        var raw := environment[FieldStrategy];
        var fieldStrategy := ResolveEnum(library.fieldStrategyNames, raw);
        if fieldStrategy.None? {
          return Some(UnknownFieldStrategy(ToUpperCase(raw)));
        }
        dbConfig := dbConfig.(fieldStrategy := CoreConfig.FieldStrategy(fieldStrategy.value));
      }
      cache.SetGlobalConfig(CoreConfig.GlobalConfig(dbConfig));
      thrown := None;
    }
  }

  /**
   * Initialising twice leaves only what the second pass resolved: nothing
   * of the first pass is merged into it.
   */
  method SecondInitializationReplacesFirst(
    config: EsAutoConfiguration, cache: CoreConfig.GlobalConfigCache, first: Environment, second: Environment)
    requires ResolveDbConfig(second, config.library).Success?
    modifies config, cache
    ensures cache.globalConfig == Some(CoreConfig.GlobalConfig(ResolveDbConfig(second, config.library).value))
  {
    config.SetEnvironment(first);
    var firstThrown := config.AfterPropertiesSet(cache);
    config.SetEnvironment(second);
    var secondThrown := config.AfterPropertiesSet(cache);
  }
}
