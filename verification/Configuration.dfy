/**
 The configuration object: `validate` rewrites its endpoints and counts in place. Proved against the
 endpoint functions, step by step on a `Url` object as the code does it.
 */
module Configuration {
  import opened Wrappers
  import opened Text
  import opened UrlPath
  import opened UrlSyntax
  import opened SocketAddress
  import opened Endpoint
  import opened ValidatedEndpoint
  import UrlCodec
  import Url

  const MIN_THREADS := 1
  const MAX_THREADS := 10
  const DEFAULT_THREADS := 1
  const MIN_CAPACITY := 1
  const MAX_CAPACITY := 4096
  const DEFAULT_CAPACITY := 1024

  datatype Settings = Settings(master: Endpoint, replicas: seq<Endpoint>, threads: int, capacity: int)

  /** One message of the list that `validate` returns. */
  datatype Complaint =
    | BadEndpoint(url: string, cause: Resolution)
    | BadThreads(count: int)
    | BadCapacity(count: int)

  // ------------------------------------------------------------------ validation as a function

  function ValidatedAll(r: Resolver, endpoints: seq<Endpoint>): (es: seq<Endpoint>)
    ensures |es| == |endpoints|
  {
    seq(|endpoints|, i requires 0 <= i < |endpoints| => Validated(r, endpoints[i]))
  }

  lemma ValidatedAt(r: Resolver, endpoints: seq<Endpoint>, i: nat)
    requires i < |endpoints|
    ensures ValidatedAll(r, endpoints)[i] == Validated(r, endpoints[i])
  {
  }

  function InRange(n: int, low: int, high: int, default: int): int {
    if low <= n <= high then n else default
  }

  function ValidatedSettings(r: Resolver, s: Settings): Settings {
    Settings(Validated(r, s.master), ValidatedAll(r, s.replicas),
             InRange(s.threads, MIN_THREADS, MAX_THREADS, DEFAULT_THREADS),
             InRange(s.capacity, MIN_CAPACITY, MAX_CAPACITY, DEFAULT_CAPACITY))
  }

  function EndpointComplaints(r: Resolver, e: Endpoint): seq<Complaint> {
    var url := WithScheme(e.url);
    if Examine(r, url).Resolved? then [] else [BadEndpoint(url, Examine(r, url))]
  }

  function Mapped<A, B>(f: A -> B, xs: seq<A>): (ys: seq<B>)
    ensures |ys| == |xs|
  {
    seq(|xs|, i requires 0 <= i < |xs| => f(xs[i]))
  }

  lemma MappedConcat<A, B>(f: A -> B, xs: seq<A>, ys: seq<A>)
    ensures Mapped(f, xs + ys) == Mapped(f, xs) + Mapped(f, ys)
  {
  }

  function ComplaintsOf(r: Resolver): Endpoint -> seq<Complaint> {
    (e: Endpoint) => EndpointComplaints(r, e)
  }

  /** The messages about each of several endpoints. */
  function EachComplaints(r: Resolver, endpoints: seq<Endpoint>): (lists: seq<seq<Complaint>>)
    ensures |lists| == |endpoints|
  {
    Mapped(ComplaintsOf(r), endpoints)
  }

  function Flat<T>(lists: seq<seq<T>>): seq<T> {
    if lists == [] then [] else Flat(lists[..|lists| - 1]) + lists[|lists| - 1]
  }

  lemma OneMore<T>(lists: seq<seq<T>>, i: nat, before: seq<T>)
    requires i < |lists|
    ensures before + Flat(lists[..i + 1]) == before + Flat(lists[..i]) + lists[i]
  {
    assert lists[..i + 1][..i] == lists[..i];
  }

  lemma {:induction false} FlatNothing<T>(lists: seq<seq<T>>)
    ensures Flat(lists) == [] <==> forall i :: 0 <= i < |lists| ==> lists[i] == []
  {
    if lists != [] {
      var n := |lists| - 1;
      FlatNothing(lists[..n]);
      assert forall i :: 0 <= i < n ==> lists[..n][i] == lists[i];
    }
  }

  function CountComplaints(s: Settings): seq<Complaint> {
    (if MIN_THREADS <= s.threads <= MAX_THREADS then [] else [BadThreads(s.threads)]) +
    (if MIN_CAPACITY <= s.capacity <= MAX_CAPACITY then [] else [BadCapacity(s.capacity)])
  }

  function Complaints(r: Resolver, s: Settings): seq<Complaint> {
    EndpointComplaints(r, s.master) + Flat(EachComplaints(r, s.replicas)) + CountComplaints(s)
  }

  /** One to ten threads and one to 4096 queued requests; anything else becomes one thread and 1024 requests. */
  lemma CountsAreClamped(r: Resolver, s: Settings)
    ensures ValidatedSettings(r, s).threads == if 1 <= s.threads <= 10 then s.threads else 1
    ensures ValidatedSettings(r, s).capacity == if 1 <= s.capacity <= 4096 then s.capacity else 1024
  {
  }

  lemma {:induction false} FlatConcat<T>(a: seq<seq<T>>, b: seq<seq<T>>)
    ensures Flat(a + b) == Flat(a) + Flat(b)
    decreases |b|
  {
    if b == [] {
      assert a + b == a;
    } else {
      var n := |b| - 1;
      assert (a + b)[..|a + b| - 1] == a + b[..n];
      FlatConcat(a, b[..n]);
    }
  }

  /** The messages about the master come first, then those about the replicas, in their order, then the counts. */
  lemma MessagesInOrder(r: Resolver, s: Settings)
    ensures Complaints(r, s) ==
            Flat(EachComplaints(r, [s.master])) + Flat(EachComplaints(r, s.replicas)) +
            ((if 1 <= s.threads <= 10 then [] else [BadThreads(s.threads)]) +
             (if 1 <= s.capacity <= 4096 then [] else [BadCapacity(s.capacity)]))
  {
    OneMessage(r, s.master);
  }

  /** Of two parts of the replicas, the messages about the first part come first. */
  lemma ReplicaMessagesInOrder(r: Resolver, a: seq<Endpoint>, b: seq<Endpoint>)
    ensures Flat(EachComplaints(r, a + b)) == Flat(EachComplaints(r, a)) + Flat(EachComplaints(r, b))
  {
    MappedConcat(ComplaintsOf(r), a, b);
    FlatConcat(EachComplaints(r, a), EachComplaints(r, b));
  }

  /** One endpoint that does not resolve is named by the URL that was examined, with the outcome. */
  lemma OneMessage(r: Resolver, e: Endpoint)
    ensures Flat(EachComplaints(r, [e])) ==
            var url := if Contains(e.url, "://") then e.url else "postgresql://" + e.url;
            if Examine(r, url).Resolved? then [] else [BadEndpoint(url, Examine(r, url))]
  {
    var lists := EachComplaints(r, [e]);
    ComplaintAt(r, [e], 0);
    assert lists == [lists[0]] && lists[..0] == [];
    assert [] + lists[0] == lists[0];
  }

  /** The endpoint's host resolves. */
  predicate Resolves(r: Resolver, e: Endpoint) {
    Examine(r, WithScheme(e.url)).Resolved?
  }

  lemma ComplaintAt(r: Resolver, endpoints: seq<Endpoint>, i: nat)
    requires i < |endpoints|
    ensures EachComplaints(r, endpoints)[i] == EndpointComplaints(r, endpoints[i])
    ensures EachComplaints(r, endpoints)[i] == [] <==> Resolves(r, endpoints[i])
  {
  }

  lemma NoneComplains(r: Resolver, endpoints: seq<Endpoint>)
    ensures Flat(EachComplaints(r, endpoints)) == [] <==>
            forall i :: 0 <= i < |endpoints| ==> Resolves(r, endpoints[i])
  {
    var lists := EachComplaints(r, endpoints);
    FlatNothing(lists);
    forall i | 0 <= i < |lists| ensures lists[i] == [] <==> Resolves(r, endpoints[i]) {
      ComplaintAt(r, endpoints, i);
    }
  }

  /** No message means: every endpoint resolved, and no count was replaced by its default. */
  lemma NoComplaints(r: Resolver, s: Settings)
    ensures Complaints(r, s) == [] <==>
            Resolves(r, s.master) && (forall i :: 0 <= i < |s.replicas| ==> Resolves(r, s.replicas[i])) &&
            ValidatedSettings(r, s).threads == s.threads && ValidatedSettings(r, s).capacity == s.capacity
  {
    NoneComplains(r, s.replicas);
    ComplaintAt(r, [s.master], 0);
  }

  // ------------------------------------------------------------------ validation in place

  /** `userinfo.find(':')` and the two substrings. */
  method SplitCredentials(userInfo: string) returns (login: string, password: string)
    ensures (login, password) == Credentials(userInfo)
  {
    login, password := "", "";
    if userInfo != "" {
      var it;
      assert userInfo[0..] == userInfo;
      login, it := Url.ReadUntil(userInfo, 0, {':'});
      if it != |userInfo| {
        password := userInfo[it + 1..];
      }
    }
  }

  /** The database a path without segments is replaced by. */
  method DefaultPath(u: Url.Url)
    modifies u`path
    ensures u.path == if Segments(old(u.path)) == [] then DEFAULT_DATABASE else old(u.path)
  {
    var segments := GetPathSegments(u.path);
    if segments == [] {
      u.SetPath(DEFAULT_DATABASE);
      DefaultDatabaseDecodes();
    }
  }

  /** The steps on the URL once its host has resolved to port `p`; what is left is its new text. */
  method Repack(u: Url.Url, p: nat) returns (text: string)
    modifies u
    ensures text == ToString(Repacked(old(u.Value()), p))
  {
    if p == 0 {
      u.SetPort(DEFAULT_PORT);
    }
    u.SetFragment("");
    DefaultPath(u);
    u.SetUserInfo("");
    NothingToEscape();
    text := u.ToText();
  }

  lemma NothingToEscape()
    ensures UrlCodec.Encode("", UrlCodec.RESERVED_FRAGMENT) == "" && UrlCodec.Decode("") == Some("")
  {
  }

  lemma DefaultDatabaseDecodes()
    ensures UrlCodec.Decode(DEFAULT_DATABASE) == Some(DEFAULT_DATABASE)
  {
    DatabaseSegment();
    PlainEncodesAsItself(DEFAULT_DATABASE);
    UrlCodec.DecodeUndoesEncode(DEFAULT_DATABASE, UrlCodec.RESERVED_PATH, false);
  }

  /** Everything in the `try` block that can throw. */
  method ExamineUrl(r: Resolver, url: string) returns (u: Url.Url, outcome: Resolution)
    ensures fresh(u) && outcome == Examine(r, url)
    ensures outcome.Resolved? ==> Parse(url) == Ok(u.Value())
  {
    u := new Url.Url();
    var error := u.Assign(url);
    outcome := OtherFailure;
    if error.None? && (u.scheme == "" || u.scheme == "postgresql") {
      outcome := Resolve(r, SocketText(u.Value()));
    }
  }

  /** One endpoint: the body of the `try` block with its two handlers, and the defaults after it. */
  method ValidateEndpoint(r: Resolver, e: Endpoint) returns (valid: Endpoint, complaint: Option<Complaint>)
    ensures valid == Validated(r, e)
    ensures EndpointComplaints(r, e) == if complaint.Some? then [complaint.value] else []
  {
    var url, login, password := e.url, e.login, e.password;
    if !Contains(url, "://") {
      url := "postgresql://" + url;
    }
    var u, outcome := ExamineUrl(r, url);
    complaint := if outcome.Resolved? then None else Some(BadEndpoint(url, outcome));
    if outcome.Resolved? {
      var foundLogin, foundPassword := SplitCredentials(u.userInfo);
      if login == "" {
        login := if foundLogin != "" then foundLogin else DEFAULT_LOGIN;
      }
      if password == "" {
        password := if foundPassword != "" then foundPassword else DEFAULT_PASSWORD;
      }
      url := Repack(u, outcome.port);
    } else if outcome.OtherFailure? {
      url := DEFAULT_URL;
    }
    if login == "" {
      login := DEFAULT_LOGIN;
    }
    if password == "" {
      password := DEFAULT_PASSWORD;
    }
    valid := Endpoint(url, login, password);
  }

  class Config {
    var master: Endpoint
    var replicas: seq<Endpoint>
    var threads: int
    var capacity: int

    function Value(): Settings
      reads this
    {
      Settings(master, replicas, threads, capacity)
    }

    /** The defaults. */
    constructor ()
      ensures Value() == Settings(Endpoint(DEFAULT_URL, "", ""), [], DEFAULT_THREADS, DEFAULT_CAPACITY)
    {
      master, replicas := Endpoint(DEFAULT_URL, "", ""), [];
      threads, capacity := DEFAULT_THREADS, DEFAULT_CAPACITY;
    }

    method Validate(r: Resolver) returns (errors: seq<Complaint>)
      modifies this
      ensures Value() == ValidatedSettings(r, old(Value()))
      ensures errors == Complaints(r, old(Value()))
    {
      var complaint;
      master, complaint := ValidateEndpoint(r, master);
      errors := if complaint.Some? then [complaint.value] else [];
      errors := ValidateReplicas(r, errors);
      errors := ValidateCounts(errors);
    }

    method ValidateReplicas(r: Resolver, before: seq<Complaint>) returns (errors: seq<Complaint>)
      modifies this`replicas
      ensures replicas == ValidatedAll(r, old(replicas))
      ensures errors == before + Flat(EachComplaints(r, old(replicas)))
    {
      errors := before;
      ghost var given, wanted, lists := replicas, ValidatedAll(r, replicas), EachComplaints(r, replicas);
      for i := 0 to |replicas|
        invariant |replicas| == |given|
        invariant forall j :: 0 <= j < |given| ==> replicas[j] == if j < i then wanted[j] else given[j]
        invariant errors == before + Flat(lists[..i])
      {
        OneMore(lists, i, before);
        errors := ValidateReplica(r, i, errors, given);
      }
      assert lists[..|replicas|] == lists;
    }

    /** The loop's body, with the replicas as they were given. */
    method ValidateReplica(r: Resolver, i: nat, before: seq<Complaint>, ghost given: seq<Endpoint>)
      returns (errors: seq<Complaint>)
      requires i < |replicas| == |given| && replicas[i] == given[i]
      modifies this`replicas
      ensures replicas == old(replicas)[i := ValidatedAll(r, given)[i]]
      ensures errors == before + EachComplaints(r, given)[i]
    {
      errors := before;
      var valid, problem := ValidateEndpoint(r, replicas[i]);
      ValidatedAt(r, given, i);
      ComplaintAt(r, given, i);
      replicas := replicas[i := valid];
      if problem.Some? {
        errors := errors + [problem.value];
      }
    }

    method ValidateCounts(before: seq<Complaint>) returns (errors: seq<Complaint>)
      modifies this`threads, this`capacity
      ensures threads == InRange(old(threads), MIN_THREADS, MAX_THREADS, DEFAULT_THREADS)
      ensures capacity == InRange(old(capacity), MIN_CAPACITY, MAX_CAPACITY, DEFAULT_CAPACITY)
      ensures errors == before + CountComplaints(old(Value()))
    {
      errors := before;
      if threads < MIN_THREADS || threads > MAX_THREADS {
        errors := errors + [BadThreads(threads)];
        threads := DEFAULT_THREADS;
      }
      if capacity < MIN_CAPACITY || capacity > MAX_CAPACITY {
        errors := errors + [BadCapacity(capacity)];
        capacity := DEFAULT_CAPACITY;
      }
    }
  }
}
