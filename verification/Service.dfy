/**
 From configuration to running service: `db_start` turns the validated endpoints into a connection
 pool, sized by the same count as the worker threads.
 */
module Service {
  import opened Wrappers
  import opened Text
  import opened UrlPath
  import opened Numbers
  import opened SocketAddress
  import opened Endpoint
  import opened Configuration
  import V = ValidatedEndpoint
  import ConnectionPool
  import opened ConnectionLedger
  import EndpointStability
  import App
  import PoolSizing
  import opened ConnectionItems

  // ------------------------------------------------------------------ connection strings

  function NodeTag(t: V.Target): string {
    t.host + (":" + Decimal(t.port))
  }

  function ConnectionText(e: Endpoint, t: V.Target): string {
    "user=" + (e.login + (" password=" + (e.password + (" host=" + (t.host + (" port=" + (Decimal(t.port) +
    (" dbname=" + (t.database + (" connect_timeout=60" + " application_name=social_network"))))))))))
  }

  /** The items of a connection string. */
  function Items(e: Endpoint, t: V.Target): (items: seq<Item>)
    ensures |items| == 7
  {
    [("user", e.login), ("password", e.password), ("host", t.host), ("port", Decimal(t.port)), ("dbname", t.database),
     ("connect_timeout", "60"), ("application_name", "social_network")]
  }

  lemma ItemsAreKeyed(e: Endpoint, t: V.Target)
    ensures Keyed(Items(e, t))
  {
    var keys := ["user", "password", "host", "port", "dbname", "connect_timeout", "application_name"];
    forall i | 0 <= i < 7 ensures Free(keys[i], {' ', '='}) {
      KeyIsWord(keys[i]);
    }
    assert forall i :: 0 <= i < 7 ==> Items(e, t)[i].0 == keys[i];
    assert |keys[0]| == 4 && |keys[1]| == 8 && |keys[2]| == 4 && |keys[3]| == 4 && |keys[4]| == 6;
    assert |keys[5]| == 15 && |keys[6]| == 16 && keys[0][0] == 'u' && keys[2][0] == 'h' && keys[3][0] == 'p';
  }

  lemma KeyIsWord(key: string)
    requires key in {"user", "password", "host", "port", "dbname", "connect_timeout", "application_name"}
    ensures Free(key, {' ', '='})
  {
    forall i | 0 <= i < |key| ensures key[i] == '_' || 'a' <= key[i] <= 'z' {
    }
  }

  lemma ItemGroups(mark: string, key: string, value: string, rest: string)
    requires mark == key + "="
    ensures mark + (value + rest) == ItemText((key, value)) + rest
  {
  }

  lemma SpacedItemGroups(mark: string, key: string, value: string, rest: string)
    requires mark == " " + key + "="
    ensures mark + (value + rest) == " " + (ItemText((key, value)) + rest)
  {
  }

  lemma LastItems()
    ensures " connect_timeout=60" + " application_name=social_network" ==
            " " + Written([("connect_timeout", "60"), ("application_name", "social_network")])
  {
    var last := [("application_name", "social_network")];
    WrittenOnto(("connect_timeout", "60"), last);
    assert [("connect_timeout", "60")] + last == [("connect_timeout", "60"), ("application_name", "social_network")];
    TimeoutItem();
    NameItem();
    LastTexts(ItemText(("connect_timeout", "60")), ItemText(("application_name", "social_network")));
  }

  lemma TimeoutItem()
    ensures " connect_timeout=60" == " " + ItemText(("connect_timeout", "60"))
  {
  }

  lemma NameItem()
    ensures " application_name=social_network" == " " + ItemText(("application_name", "social_network"))
  {
  }

  lemma LastTexts(timeout: string, name: string)
    ensures (" " + timeout) + (" " + name) == " " + (timeout + (" " + name))
  {
  }

  lemma WrittenOnto(item: Item, items: seq<Item>)
    requires items != []
    ensures Written([item] + items) == ItemText(item) + (" " + Written(items))
  {
    assert ([item] + items)[1..] == items;
  }

  lemma Grouped(login: string, password: string, host: string, port: string, database: string, last: string)
    ensures "user=" + (login + (" password=" + (password + (" host=" + (host + (" port=" + (port +
            (" dbname=" + (database + last))))))))) ==
            ItemText(("user", login)) + (" " + (ItemText(("password", password)) + (" " + (ItemText(("host", host)) +
            (" " + (ItemText(("port", port)) + (" " + (ItemText(("dbname", database)) + last))))))))
  {
    var four := " dbname=" + (database + last);
    var three := " port=" + (port + four);
    var two := " host=" + (host + three);
    assert "user=" == "user" + "=" && " password=" == " " + "password" + "=" && " host=" == " " + "host" + "=";
    assert " port=" == " " + "port" + "=" && " dbname=" == " " + "dbname" + "=";
    SpacedItemGroups(" dbname=", "dbname", database, last);
    SpacedItemGroups(" port=", "port", port, four);
    SpacedItemGroups(" host=", "host", host, three);
    SpacedItemGroups(" password=", "password", password, two);
    ItemGroups("user=", "user", login, " password=" + (password + two));
  }

  /** The connection string is its items, written one after the other. */
  lemma TextIsWritten(e: Endpoint, t: V.Target)
    ensures ConnectionText(e, t) == Written(Items(e, t))
  {
    var last := [("connect_timeout", "60"), ("application_name", "social_network")];
    LastItems();
    Grouped(e.login, e.password, t.host, Decimal(t.port), t.database, " " + Written(last));
    var five := [("dbname", t.database)] + last;
    var four := [("port", Decimal(t.port))] + five;
    var three := [("host", t.host)] + four;
    var two := [("password", e.password)] + three;
    WrittenOnto(("dbname", t.database), last);
    WrittenOnto(("port", Decimal(t.port)), five);
    WrittenOnto(("host", t.host), four);
    WrittenOnto(("password", e.password), three);
    WrittenOnto(("user", e.login), two);
    assert Items(e, t) == [("user", e.login)] + two;
  }

  /** No space in what a connection string is made of. */
  predicate NoSpaces(e: Endpoint, t: V.Target) {
    ' ' !in e.login && ' ' !in e.password && ' ' !in t.host && ' ' !in t.database
  }

  /** Login, password, host, port and database read back from the text. */
  predicate ReadsAs(text: string, login: string, password: string, t: V.Target) {
    && Read(text, "user") == Some(login) && Read(text, "password") == Some(password)
    && Read(text, "host") == Some(t.host) && Read(text, "port") == Some(Decimal(t.port))
    && Read(text, "dbname") == Some(t.database)
  }

  lemma SpaceFreeItems(e: Endpoint, t: V.Target)
    ensures SpaceFree(Items(e, t)) <==> NoSpaces(e, t)
    ensures forall i :: 3 <= i < 7 && i != 4 ==> Free(Items(e, t)[i].1, {' '})
  {
    var items := Items(e, t);
    DecimalIsDigits(t.port);
    assert Free(items[0].1, {' '}) <==> ' ' !in e.login;
    assert Free(items[1].1, {' '}) <==> ' ' !in e.password;
    assert Free(items[2].1, {' '}) <==> ' ' !in t.host;
    assert Free(items[4].1, {' '}) <==> ' ' !in t.database;
    assert Free(items[3].1, {' '}) && Free(items[5].1, {' '}) && Free(items[6].1, {' '});
  }

  lemma ReadsAsItems(e: Endpoint, t: V.Target)
    ensures ReadsAs(ConnectionText(e, t), e.login, e.password, t)
            <==> forall i: nat :: i < 5 ==> ReadsBack(Items(e, t), i)
  {
    TextIsWritten(e, t);
    var items := Items(e, t);
    assert ReadsBack(items, 0) <==> Read(ConnectionText(e, t), "user") == Some(e.login);
    assert ReadsBack(items, 1) <==> Read(ConnectionText(e, t), "password") == Some(e.password);
    assert ReadsBack(items, 2) <==> Read(ConnectionText(e, t), "host") == Some(t.host);
    assert ReadsBack(items, 3) <==> Read(ConnectionText(e, t), "port") == Some(Decimal(t.port));
    assert ReadsBack(items, 4) <==> Read(ConnectionText(e, t), "dbname") == Some(t.database);
  }

  /** A connection string reads as the endpoint's credentials and target if and only if none has a space in it. */
  lemma ConnectionTextReads(e: Endpoint, t: V.Target)
    ensures ReadsAs(ConnectionText(e, t), e.login, e.password, t) <==> NoSpaces(e, t)
  {
    ReadsAsItems(e, t);
    ItemsAreKeyed(e, t);
    SpaceFreeItems(e, t);
    ItemsRead(Items(e, t));
  }

  /** The sixth and the seventh item are constants. */
  lemma ItemsRead(items: seq<Item>)
    requires Keyed(items) && |items| == 7 && Free(items[5].1, {' '}) && Free(items[6].1, {' '})
    ensures (forall i: nat :: i < 5 ==> ReadsBack(items, i)) <==> SpaceFree(items)
  {
    AllReadBackExactlyWhenSpaceFree(items);
    if !SpaceFree(items) {
      var i := FirstWithSpace(items);
      LosesItem(items, i);
    }
  }

  /** The node an endpoint describes, if its URL can be taken apart. */
  function NodeConf(e: Endpoint): Option<(string, string)> {
    match V.ConnectsTo(e.url)
    case None => None
    case Some(t) => Some((ConnectionText(e, t), NodeTag(t)))
  }

  function NodeConfs(es: seq<Endpoint>): seq<Option<(string, string)>> {
    seq(|es|, i requires 0 <= i < |es| => NodeConf(es[i]))
  }

  predicate AllKnown<T>(xs: seq<Option<T>>) {
    forall i :: 0 <= i < |xs| ==> xs[i].Some?
  }

  function Values<T>(xs: seq<Option<T>>): seq<T>
    requires AllKnown(xs)
  {
    seq(|xs|, i requires 0 <= i < |xs| => xs[i].value)
  }

  /** Every endpoint describes a node. */
  predicate Startable(s: Settings) {
    NodeConf(s.master).Some? && AllKnown(NodeConfs(s.replicas))
  }

  /** An `int` passed as a `size_t` or `uint64_t`. */
  function Unsigned(n: int): nat {
    n % 0x1_0000_0000_0000_0000
  }

  /** Both pools as configured. */
  function Deployed(s: Settings): App.Deployment
    requires Startable(s)
  {
    App.Wiring(NodeConf(s.master).value, Values(NodeConfs(s.replicas)), Unsigned(s.threads), Unsigned(s.capacity))
  }

  /** The pool that `db_start` builds. */
  function Opened(s: Settings): Pool
    requires Startable(s)
  {
    Build([NodeConf(s.master).value], Values(NodeConfs(s.replicas)), Unsigned(s.threads))
  }

  method Describe(e: Endpoint) returns (conf: Option<(string, string)>)
    ensures conf == NodeConf(e)
  {
    var target := V.ConnectsTo(e.url);
    if target.None? {
      return None;
    }
    var tag := target.value.host + (":" + Decimal(target.value.port));
    conf := Some((ConnectionText(e, target.value), tag));
  }

  method DescribeAll(es: seq<Endpoint>) returns (confs: Option<seq<(string, string)>>)
    ensures confs == var all := NodeConfs(es); if AllKnown(all) then Some(Values(all)) else None
  {
    ghost var all := NodeConfs(es);
    var found := [];
    for i := 0 to |es|
      invariant Known(found) == all[..i]
    {
      var conf := Describe(es[i]);
      assert conf == all[i];
      if conf.None? {
        return None;
      }
      OneMoreKnown(all, i, found, conf.value);
      found := found + [conf.value];
    }
    confs := Some(found);
    assert all[..|es|] == all;
    KnownValues(found);
  }

  function Known<T>(xs: seq<T>): seq<Option<T>> {
    seq(|xs|, i requires 0 <= i < |xs| => Some(xs[i]))
  }

  lemma KnownValues<T>(xs: seq<T>)
    ensures AllKnown(Known(xs)) && Values(Known(xs)) == xs
  {
  }

  lemma OneMoreKnown<T>(all: seq<Option<T>>, i: nat, found: seq<T>, x: T)
    requires i < |all| && Known(found) == all[..i] && all[i] == Some(x)
    ensures Known(found + [x]) == all[..i + 1]
  {
    assert all[..i + 1] == all[..i] + [all[i]];
    assert Known(found + [x]) == Known(found) + [Some(x)];
  }

  class Service {
    const config: Config
    const turns: ConnectionPool.TurnCounters
    var dbPool: ConnectionPool.ConnectionPool?

    constructor (config: Config)
      ensures this.config == config && dbPool == null && fresh(turns)
      ensures turns.lastMaster == 0 && turns.lastReplica == 0
    {
      this.config := config;
      turns := new ConnectionPool.TurnCounters();
      dbPool := null;
    }

    /** Starts once; a URL that cannot be taken apart ends it without a pool. */
    method DbStart()
      modifies this`dbPool
      ensures old(dbPool) != null ==> dbPool == old(dbPool)
      ensures old(dbPool) == null ==> (dbPool != null <==> Startable(config.Value()))
      ensures old(dbPool) == null && dbPool != null ==>
                fresh(dbPool) && dbPool.turns == turns &&
                dbPool.View() ==
                  Opened(config.Value()).(lastMaster := turns.lastMaster, lastReplica := turns.lastReplica)
    {
      if dbPool != null {
        return;
      }
      var master := Describe(config.master);
      if master.None? {
        return;
      }
      var replicas := DescribeAll(config.replicas);
      if replicas.None? {
        return;
      }
      dbPool := new ConnectionPool.ConnectionPool([master.value], replicas.value, Unsigned(config.threads), turns);
    }
  }

  // ------------------------------------------------------------------ end to end

  /** The percent-escapes of all paths stand for ASCII bytes. */
  predicate AsciiPaths(s: Settings) {
    AsciiPath(s.master) && forall i :: 0 <= i < |s.replicas| ==> AsciiPath(s.replicas[i])
  }

  /** Some endpoint's host does not resolve, and no path follows it. */
  predicate AnyPathless(r: Resolver, s: Settings) {
    V.Pathless(r, s.master) || exists i :: 0 <= i < |s.replicas| && V.Pathless(r, s.replicas[i])
  }

  lemma NodeUnlessPathless(r: Resolver, e: Endpoint)
    requires AsciiPath(e)
    ensures NodeConf(Validated(r, e)).Some? <==> !V.Pathless(r, e)
  {
    V.ConnectsUnlessPathless(r, e);
  }

  lemma ReplicaUnlessPathless(r: Resolver, es: seq<Endpoint>, i: nat)
    requires i < |es| && AsciiPath(es[i])
    ensures NodeConfs(ValidatedAll(r, es))[i].Some? <==> !V.Pathless(r, es[i])
  {
    NodeUnlessPathless(r, es[i]);
  }

  /** After validation the service starts, exactly if no endpoint is unresolved and without a path. */
  lemma StartsUnlessPathless(r: Resolver, s: Settings)
    requires AsciiPaths(s)
    ensures Startable(ValidatedSettings(r, s)) <==> !AnyPathless(r, s)
  {
    var confs := NodeConfs(ValidatedAll(r, s.replicas));
    NodeUnlessPathless(r, s.master);
    forall i | 0 <= i < |confs| ensures confs[i].Some? <==> !V.Pathless(r, s.replicas[i]) {
      ReplicaUnlessPathless(r, s.replicas, i);
    }
  }

  lemma CountsInRange(r: Resolver, s: Settings)
    ensures var v := ValidatedSettings(r, s);
            1 <= v.threads == Unsigned(v.threads) <= 10 && 1 <= v.capacity == Unsigned(v.capacity) <= 4096
  {
    UnsignedKeeps(InRange(s.threads, MIN_THREADS, MAX_THREADS, DEFAULT_THREADS));
    UnsignedKeeps(InRange(s.capacity, MIN_CAPACITY, MAX_CAPACITY, DEFAULT_CAPACITY));
  }

  lemma UnsignedKeeps(n: int)
    requires 0 <= n < 0x8000_0000
    ensures Unsigned(n) == n
  {
  }

  /**
   A service that starts after validation never refuses a handler a connection, in any run; with one
   connection per node fewer, some run would.
   */
  lemma StartedServiceNeverRefuses(r: Resolver, s: Settings)
    requires Startable(ValidatedSettings(r, s))
    ensures var v := ValidatedSettings(r, s);
            1 <= v.threads <= 10 && 1 <= v.capacity <= 4096 && PoolSizing.JustEnough(Deployed(v))
  {
    var v := ValidatedSettings(r, s);
    CountsInRange(r, s);
    DeployedIsJustEnough(v);
  }

  lemma DeployedIsJustEnough(v: Settings)
    requires Startable(v) && Unsigned(v.threads) > 0 && Unsigned(v.capacity) > 0
    ensures PoolSizing.JustEnough(Deployed(v))
  {
    PoolSizing.WiringIsJustEnough(
      NodeConf(v.master).value, Values(NodeConfs(v.replicas)), Unsigned(v.threads), Unsigned(v.capacity));
  }

  /** End to end: unless an endpoint is unresolved and without a path, the service starts and never refuses. */
  lemma ValidatedServiceNeverRefuses(r: Resolver, s: Settings)
    requires AsciiPaths(s) && !AnyPathless(r, s)
    ensures var v := ValidatedSettings(r, s);
            1 <= v.threads <= 10 && 1 <= v.capacity <= 4096 && Startable(v) && PoolSizing.JustEnough(Deployed(v))
  {
    StartsUnlessPathless(r, s);
    StartedServiceNeverRefuses(r, s);
  }

  /** The excepted family of endpoints. */
  predicate Excepted(r: Resolver, e: Endpoint) {
    Examine(r, WithScheme(e.url)).Resolved? && V.LeadingColon(e.url)
  }

  lemma ValidatedAllIsStable(r: Resolver, es: seq<Endpoint>)
    requires OrdinaryServices(r) && forall i :: 0 <= i < |es| ==> AsciiPath(es[i])
    ensures ValidatedAll(r, ValidatedAll(r, es)) == ValidatedAll(r, es)
       <==> forall i :: 0 <= i < |es| ==> !Excepted(r, es[i])
  {
    var once := ValidatedAll(r, es);
    var twice := ValidatedAll(r, once);
    forall i | 0 <= i < |es| ensures twice[i] == once[i] <==> !Excepted(r, es[i]) {
      EndpointStability.ValidationIsStable(r, es[i]);
    }
  }

  /** Validating the configuration again changes nothing, unless an endpoint is of the excepted family. */
  lemma ValidatedSettingsAreStable(r: Resolver, s: Settings)
    requires OrdinaryServices(r) && AsciiPaths(s)
    ensures ValidatedSettings(r, ValidatedSettings(r, s)) == ValidatedSettings(r, s)
       <==> !Excepted(r, s.master) && forall i :: 0 <= i < |s.replicas| ==> !Excepted(r, s.replicas[i])
  {
    EndpointStability.ValidationIsStable(r, s.master);
    ValidatedAllIsStable(r, s.replicas);
  }

  // ------------------------------------------------------------------ what connections are opened with

  function EndpointOf(s: Settings, t: NodeType, i: nat): Endpoint
    requires t.Master? || i < |s.replicas|
  {
    if t.Master? then s.master else s.replicas[i]
  }

  lemma OpenedFrom(s: Settings, t: NodeType, i: nat)
    requires Startable(s) && i < |Opened(s).Nodes(t)|
    ensures (t.Master? || i < |s.replicas|) && NodeConf(EndpointOf(s, t, i)).Some?
    ensures var node := Opened(s).Nodes(t)[i]; (node.connStr, node.tag) == NodeConf(EndpointOf(s, t, i)).value
    ensures forall k :: 0 <= k < |Opened(s).Nodes(t)[i].idle| ==>
              Opened(s).Nodes(t)[i].idle[k].connStr == Opened(s).Nodes(t)[i].connStr
  {
    BuiltAsConfigured([NodeConf(s.master).value], Values(NodeConfs(s.replicas)), Unsigned(s.threads), t, i);
    if t.Replica? {
      assert NodeConfs(s.replicas)[i] == NodeConf(s.replicas[i]) && NodeConfs(s.replicas)[i].Some?;
    }
  }

  lemma NodeConfIs(e: Endpoint)
    ensures NodeConf(e).Some? <==> V.ConnectsTo(e.url).Some?
    ensures NodeConf(e).Some? ==>
              var t := V.ConnectsTo(e.url).value;
              NodeConf(e).value == (ConnectionText(e, t), t.host + (":" + Decimal(t.port)))
  {
  }

  /**
   Every connection of every node is opened with a text that reads as its own endpoint's credentials,
   host, port and database - if and only if none of them has a space in it; the tag is host and port.
   */
  lemma ConnectionsAreOpenedAsConfigured(s: Settings, t: NodeType, i: nat, k: nat)
    requires Startable(s) && i < |Opened(s).Nodes(t)| && k < |Opened(s).Nodes(t)[i].idle|
    ensures (t.Master? || i < |s.replicas|) && V.ConnectsTo(EndpointOf(s, t, i).url).Some?
    ensures var e := EndpointOf(s, t, i); var to := V.ConnectsTo(e.url).value; var node := Opened(s).Nodes(t)[i];
            node.tag == to.host + (":" + Decimal(to.port)) &&
            (ReadsAs(node.idle[k].connStr, e.login, e.password, to) <==> NoSpaces(e, to))
  {
    OpenedFrom(s, t, i);
    var e := EndpointOf(s, t, i);
    NodeConfIs(e);
    ConnectionTextReads(e, V.ConnectsTo(e.url).value);
  }

  /**
   The text that the connections of an endpoint as configured are opened with: the login and password
   configured, or else those of its URL, or else the defaults; its host; its port and its database, or
   the defaults. It reads as these if and only if none of them has a space in it.
   */
  predicate OpensWith(r: Resolver, e: Endpoint, login: string, password: string, text: string)
    requires Examine(r, WithScheme(e.url)).Resolved?
  {
    var u, p := V.Examined(r, e), Examine(r, WithScheme(e.url)).port;
    var user := if e.login != "" then e.login else if login != "" then login else "postgres";
    var secret := if e.password != "" then e.password else password;
    var to := V.Target(u.host, if p == 0 || u.port == 0 then 5432 else u.port,
                       if Segments(u.path) == [] then "postgres" else u.path[1..]);
    ReadsAs(text, user, secret, to) <==> ' ' !in user && ' ' !in secret && ' ' !in to.host && ' ' !in to.database
  }

  /** A resolving endpoint, with the user info of its URL as login and password. */
  lemma ResolvingEndpointOpens(r: Resolver, e: Endpoint, login: string, password: string)
    requires AsciiPath(e) && Examine(r, WithScheme(e.url)).Resolved? && !V.LeadingColon(e.url)
    requires V.UserInfoIs(V.Examined(r, e).userInfo, login, password)
    ensures NodeConf(Validated(r, e)).Some? && OpensWith(r, e, login, password, NodeConf(Validated(r, e)).value.0)
  {
    V.CredentialsMove(r, e, login, password);
    V.ResolvedConnects(r, e);
    NodeConfIs(Validated(r, e));
    ConnectionTextReads(Validated(r, e), V.ConnectsTo(Validated(r, e).url).value);
  }

  /** From the configuration as given to every connection of the master and of each replica that resolves. */
  lemma ResolvingNodesOpen(r: Resolver, s: Settings, t: NodeType, i: nat, k: nat, login: string, password: string)
    requires var v := ValidatedSettings(r, s);
             Startable(v) && i < |Opened(v).Nodes(t)| && k < |Opened(v).Nodes(t)[i].idle|
    requires t.Master? || i < |s.replicas|
    requires var e := EndpointOf(s, t, i);
             AsciiPath(e) && Examine(r, WithScheme(e.url)).Resolved? && !V.LeadingColon(e.url) &&
             V.UserInfoIs(V.Examined(r, e).userInfo, login, password)
    ensures OpensWith(r, EndpointOf(s, t, i), login, password,
                      Opened(ValidatedSettings(r, s)).Nodes(t)[i].idle[k].connStr)
  {
    var v := ValidatedSettings(r, s);
    OpenedFrom(v, t, i);
    if t.Replica? { ValidatedAt(r, s.replicas, i); }
    ResolvingEndpointOpens(r, EndpointOf(s, t, i), login, password);
  }
}
