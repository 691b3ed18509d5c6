/** The node's answers to pairing requests (`_handle_pair_request`) over whole runs, together
    with the env file that persists the credentials. */
module PairingRequests {
  import opened PythonText
  import opened OrderedDict
  import opened EnvFile
  import opened PairingFile

  /** The settings a pairing writes; the first four fields are what a request can change. */
  datatype Settings = Settings(
    nodeId: string,
    gatewayBaseUrl: string,
    nodeToken: string,
    pairingTraceId: string,
    pairingKey: string,
    hostname: string,
    nodeKind: string,
    localDirectAuth: bool,
    discoveryEnabled: bool,
    discoveryPort: string,
    pairingLabel: string,
    envFile: string,
    diagnosticsDir: string,
    serviceMode: string,
    serviceName: string)

  datatype PairRequest = PairRequest(
    gatewayBaseUrl: string,
    nodeToken: string,
    nodeId: string,
    pairingKey: string,
    pairingTraceId: string)

  datatype Reply = AuthFailed | AlreadyPaired | Incomplete | WriteFailed | RegisterFailed | Paired

  /** What the file system and the gateway make of an accepted request. */
  datatype Outcome = WriteError | RegisterError | Registered

  const UPDATED_KEYS: seq<string> := [
    "CLAW_NODE_ID", "CLAW_NODE_KIND", "CLAW_GATEWAY_BASE_URL", "CLAW_NODE_TOKEN", "CLAW_LOCAL_DIRECT_AUTH",
    "CLAW_PAIRING_KEY", "CLAW_PAIRING_TRACE_ID", "CLAW_DISCOVERY_ENABLED", "CLAW_DISCOVERY_PORT",
    "CLAW_PAIRING_LABEL", "CLAW_ENV_FILE", "CLAW_DIAGNOSTICS_DIR", "CLAW_SERVICE_MODE", "CLAW_SERVICE_NAME"]

  function Updates(s: Settings): (u: Entries)
    ensures |u| == |UPDATED_KEYS| && forall i :: 0 <= i < |u| ==> u[i].0 == UPDATED_KEYS[i]
  {
    [("CLAW_NODE_ID", s.nodeId),
     ("CLAW_NODE_KIND", s.nodeKind),
     ("CLAW_GATEWAY_BASE_URL", s.gatewayBaseUrl),
     ("CLAW_NODE_TOKEN", s.nodeToken),
     ("CLAW_LOCAL_DIRECT_AUTH", Flag(s.localDirectAuth)),
     ("CLAW_PAIRING_KEY", s.pairingKey),
     ("CLAW_PAIRING_TRACE_ID", s.pairingTraceId),
     ("CLAW_DISCOVERY_ENABLED", Flag(s.discoveryEnabled)),
     ("CLAW_DISCOVERY_PORT", s.discoveryPort),
     ("CLAW_PAIRING_LABEL", s.pairingLabel),
     ("CLAW_ENV_FILE", s.envFile),
     ("CLAW_DIAGNOSTICS_DIR", s.diagnosticsDir),
     ("CLAW_SERVICE_MODE", s.serviceMode),
     ("CLAW_SERVICE_NAME", s.serviceName)]
  }

  /** What the request asks for, before anything is written. */
  datatype Decision = Refuse(reply: Reply) | Accept(settings: Settings)

  function Decide(s: Settings, r: PairRequest): Decision {
    var expected := Strip(s.pairingKey);
    if expected == "" || Strip(r.pairingKey) != expected then Refuse(AuthFailed)
    else
      var gateway := Strip(r.gatewayBaseUrl);
      var token := Strip(r.nodeToken);
      var currentToken := Strip(s.nodeToken);
      var currentId := Strip(s.nodeId);
      var nodeId := if Strip(r.nodeId) != "" then Strip(r.nodeId) else currentId;
      if currentToken != "" && gateway == Strip(s.gatewayBaseUrl) && token == currentToken
         && (nodeId == "" || nodeId == currentId) then Refuse(AlreadyPaired)
      else if gateway == "" || token == "" then Refuse(if currentToken != "" then AlreadyPaired else Incomplete)
      else
        Accept(s.(gatewayBaseUrl := gateway, nodeToken := token,
                  nodeId := if nodeId != "" then nodeId else s.hostname,
                  pairingTraceId := Strip(r.pairingTraceId)))
  }

  /** The node: settings in memory and the env file. `stale` records that the last write failed. */
  datatype Node = Node(settings: Settings, file: Option<string>, stale: bool)

  /** The settings with which `_ensure_gateway_loops_started` tries to register at all. */
  predicate LoopsMayStart(s: Settings) {
    (Strip(s.nodeToken) != "" || s.localDirectAuth) && Strip(s.gatewayBaseUrl) != "" && Strip(s.nodeId) != ""
  }

  function Handle(n: Node, r: PairRequest, outcome: Outcome): (Node, Reply) {
    match Decide(n.settings, r)
    case Refuse(reply) => (n, reply)
    case Accept(s) => Applied(n.(settings := s), outcome)
  }

  /** The part behind the assignments: write the file, then start the loops. */
  function Applied(n: Node, outcome: Outcome): (Node, Reply) {
    if outcome.WriteError? then (n.(stale := true), WriteFailed)
    else (n.(file := Some(Persisted(n.file, Updates(n.settings))), stale := false),
          if LoopsMayStart(n.settings) && outcome.Registered? then Paired else RegisterFailed)
  }

  /** The worker's fields, changed step by step by a request. */
  class PairingService {
    var settings: Settings
    var file: Option<string>
    var stale: bool

    function View(): Node
      reads this
    {
      Node(settings, file, stale)
    }

    /** Whether the heartbeat runs afterwards; `registers` is the gateway's answer. */
    method EnsureGatewayLoopsStarted(registers: bool) returns (heartbeat: bool)
      ensures heartbeat == (LoopsMayStart(settings) && registers)
    {
      if (Strip(settings.nodeToken) == "" && !settings.localDirectAuth)
         || Strip(settings.gatewayBaseUrl) == "" || Strip(settings.nodeId) == "" {
        return false;
      }
      return registers;
    }

    method HandlePairRequest(r: PairRequest, outcome: Outcome) returns (reply: Reply)
      modifies this
      ensures (View(), reply) == Handle(old(View()), r, outcome)
    {
      var expected := Strip(settings.pairingKey);
      if expected == "" || Strip(r.pairingKey) != expected {
        return AuthFailed;
      }
      var currentToken := Strip(settings.nodeToken);
      var currentId := Strip(settings.nodeId);
      var gateway := Strip(r.gatewayBaseUrl);
      var token := Strip(r.nodeToken);
      var nodeId := Strip(r.nodeId);
      if nodeId == "" {
        nodeId := currentId;
      }
      if currentToken != "" && gateway == Strip(settings.gatewayBaseUrl) && token == currentToken
         && (nodeId == "" || nodeId == currentId) {
        return AlreadyPaired;
      }
      if gateway == "" || token == "" {
        if currentToken != "" {
          return AlreadyPaired;
        }
        return Incomplete;
      }
      settings := settings.(gatewayBaseUrl := gateway, nodeToken := token,
                            nodeId := if nodeId != "" then nodeId else settings.hostname,
                            pairingTraceId := Strip(r.pairingTraceId));
      reply := ApplyPairing(outcome);
    }

    method ApplyPairing(outcome: Outcome) returns (reply: Reply)
      modifies this
      ensures (View(), reply) == Applied(old(View()), outcome)
    {
      if outcome.WriteError? {
        stale := true;
        return WriteFailed;
      }
      var text := PersistRuntimePairing(file, Updates(settings));
      file := Some(text);
      stale := false;
      var heartbeat := EnsureGatewayLoopsStarted(outcome.Registered?);
      if !heartbeat {
        return RegisterFailed;
      }
      return Paired;
    }
  }

  // ----- runs -----

  function Run(n: Node, requests: seq<(PairRequest, Outcome)>): Node {
    if requests == [] then n
    else Handle(Run(n, requests[..|requests| - 1]), requests[|requests| - 1].0, requests[|requests| - 1].1).0
  }

  /** Values the merger can write on one line and the plain reader returns unchanged. */
  predicate Clean(v: string) { NoBreak(v) && Trimmed(v) }

  predicate CleanSettings(s: Settings) {
    NoBreak(s.pairingKey) && NoBreak(s.nodeKind) && NoBreak(s.discoveryPort) && NoBreak(s.pairingLabel)
    && NoBreak(s.envFile) && NoBreak(s.diagnosticsDir) && NoBreak(s.serviceMode) && NoBreak(s.serviceName)
    && Clean(s.hostname) && Clean(s.nodeId) && Clean(s.gatewayBaseUrl) && Clean(s.nodeToken) && Clean(s.pairingTraceId)
  }

  predicate CleanRequest(r: PairRequest) {
    NoBreak(Strip(r.gatewayBaseUrl)) && NoBreak(Strip(r.nodeToken)) && NoBreak(Strip(r.nodeId))
    && NoBreak(Strip(r.pairingTraceId))
  }

  /** What a plain reader of the env file finds under a key. */
  function Stored(file: Option<string>, key: string): Option<string> {
    Lookup(ReadLines(ExistingLines(file), Strip), key)
  }

  predicate CredentialsStored(n: Node) {
    Stored(n.file, "CLAW_NODE_ID") == Some(n.settings.nodeId)
    && Stored(n.file, "CLAW_GATEWAY_BASE_URL") == Some(n.settings.gatewayBaseUrl)
    && Stored(n.file, "CLAW_NODE_TOKEN") == Some(n.settings.nodeToken)
    && Stored(n.file, "CLAW_PAIRING_TRACE_ID") == Some(n.settings.pairingTraceId)
  }

  /** No key the pairing writes stands on two lines. */
  ghost predicate NoDuplicates(n: Node) {
    forall key :: Has(Updates(n.settings), key) ==> Occurrences(ExistingLines(n.file), key) <= 1
  }

  ghost predicate Consistent(n: Node) {
    CleanSettings(n.settings) && NoDuplicates(n) && (n.stale || CredentialsStored(n))
  }

  lemma UpdatedKeysWritable(u: Entries)
    requires |u| == |UPDATED_KEYS| && forall i :: 0 <= i < |u| ==> u[i].0 == UPDATED_KEYS[i]
    ensures Writable(u)
  {
    UpdatedKeysDistinct();
    DistinctByIndex(u);
    UpdatedKeysSafe();
  }

  lemma UpdatedKeysDistinct()
    ensures forall i, j :: 0 <= i < j < |UPDATED_KEYS| ==> UPDATED_KEYS[i] != UPDATED_KEYS[j]
  {
  }

  predicate KeyCharacters(k: string) { k != "" && forall i :: 0 <= i < |k| ==> 'A' <= k[i] <= 'Z' || k[i] == '_' }

  lemma KeyCharactersSafe(k: string)
    requires KeyCharacters(k)
    ensures SafeKey(k)
  {
  }

  lemma FirstKeysSafe()
    ensures forall i :: 0 <= i < 7 ==> KeyCharacters(UPDATED_KEYS[i])
  {
  }

  lemma OtherKeysSafe()
    ensures forall i :: 7 <= i < |UPDATED_KEYS| ==> KeyCharacters(UPDATED_KEYS[i])
  {
  }

  lemma UpdatedKeysSafe()
    ensures forall i :: 0 <= i < |UPDATED_KEYS| ==> SafeKey(UPDATED_KEYS[i])
  {
    FirstKeysSafe();
    OtherKeysSafe();
    forall i | 0 <= i < |UPDATED_KEYS| ensures SafeKey(UPDATED_KEYS[i]) {
      KeyCharactersSafe(UPDATED_KEYS[i]);
    }
  }

  lemma UpdatesLookup(s: Settings, i: nat)
    requires i < |UPDATED_KEYS|
    ensures Writable(Updates(s)) && Lookup(Updates(s), UPDATED_KEYS[i]) == Some(Updates(s)[i].1)
  {
    UpdatedKeysWritable(Updates(s));
    LookupEntry(Updates(s), i);
  }

  /** Two settings write the same keys. */
  lemma SameKeys(s: Settings, t: Settings, key: string)
    ensures Has(Updates(s), key) <==> Has(Updates(t), key)
  {
    HasIndex(Updates(s), key);
    HasIndex(Updates(t), key);
  }

  lemma UpdatesOnOneLine(s: Settings)
    requires CleanSettings(s)
    ensures OnOneLine(Updates(s))
  {
    assert NoBreak("true") && NoBreak("false");
    var u := Updates(s);
    forall i | 0 <= i < |u| ensures NoBreak(u[i].1) {
    }
  }

  lemma {:induction false} RenderedOccurrences(u: Entries, key: string)
    requires Writable(u)
    ensures Occurrences(Rendered(u), key) == if Has(u, key) then 1 else 0
    decreases |u|
  {
    if u != [] {
      assert Writable(u[1..]) by {
        assert forall i :: 0 <= i < |u[1..]| ==> u[1..][i] == u[i + 1];
      }
      RenderedOccurrences(u[1..], key);
      AssignmentView(u[0].0, u[0].1);
      assert Rendered(u)[1..] == Rendered(u[1..]);
    }
  }

  /** A merge gives each key the occurrences it had, or one for a key it appends. */
  lemma {:induction false} MergedOccurrences(lines: seq<string>, u: Entries, key: string)
    requires Writable(u)
    ensures Occurrences(Merge(lines, u), key)
      == if Has(u, key) && Occurrences(lines, key) == 0 then 1 else Occurrences(lines, key)
    decreases |lines|
  {
    if lines == [] {
      RenderedOccurrences(u, key);
    } else {
      ViewsAgree(lines[0]);
      var m := Merge(lines, u);
      if Rewrites(lines[0], u) {
        var k := RawKey(lines[0]);
        RemoveWritable(u, k);
        RemoveLookup(u, k, key);
        WritableKey(u, k);
        AssignmentView(k, Lookup(u, k).value);
        MergedOccurrences(lines[1..], Remove(u, k), key);
        assert m[1..] == Merge(lines[1..], Remove(u, k));
      } else {
        MergedOccurrences(lines[1..], u, key);
        assert m[1..] == Merge(lines[1..], u);
      }
    }
  }

  lemma AcceptedIsClean(s: Settings, r: PairRequest)
    requires CleanSettings(s) && CleanRequest(r) && Decide(s, r).Accept?
    ensures CleanSettings(Decide(s, r).settings)
  {
    StripIdempotent(r.gatewayBaseUrl);
    StripIdempotent(r.nodeToken);
    StripIdempotent(r.nodeId);
    StripIdempotent(r.pairingTraceId);
    StripTrimmed(s.nodeId);
  }

  lemma WriteStoresText(n: Node, s: Settings, i: nat, key: string, value: string)
    requires CleanSettings(s) && NoDuplicates(n.(settings := s))
    requires i < |UPDATED_KEYS| && Updates(s)[i] == (key, value)
    ensures Stored(Some(Persisted(n.file, Updates(s))), key) == Some(Strip(value))
  {
    UpdatesLookup(s, i);
    UpdatesOnOneLine(s);
    ReadersTrim();
    PersistReadsBack(n.file, Updates(s), Strip, key);
  }

  lemma WriteStoresEntry(n: Node, s: Settings, i: nat, key: string, value: string)
    requires CleanSettings(s) && NoDuplicates(n.(settings := s))
    requires i < |UPDATED_KEYS| && Updates(s)[i] == (key, value) && Trimmed(value)
    ensures Stored(Some(Persisted(n.file, Updates(s))), key) == Some(value)
  {
    WriteStoresText(n, s, i, key, value);
    StripTrimmed(value);
  }

  lemma WriteKeepsUnique(n: Node, s: Settings)
    requires CleanSettings(s) && NoDuplicates(n.(settings := s))
    ensures NoDuplicates(Node(s, Some(Persisted(n.file, Updates(s))), false))
  {
    var u := Updates(s);
    UpdatedKeysWritable(u);
    UpdatesOnOneLine(s);
    PersistedLines(n.file, u);
    forall key | Has(u, key) ensures Occurrences(Merge(ExistingLines(n.file), u), key) <= 1 {
      MergedOccurrences(ExistingLines(n.file), u, key);
    }
  }

  /** A successful write leaves the file holding exactly the credentials in memory. */
  lemma WriteStores(n: Node, s: Settings)
    requires CleanSettings(s) && NoDuplicates(n.(settings := s))
    ensures Consistent(Node(s, Some(Persisted(n.file, Updates(s))), false))
  {
    WriteStoresCredentials(n, s);
    WriteKeepsUnique(n, s);
  }

  lemma CredentialEntries(s: Settings)
    ensures Updates(s)[0] == ("CLAW_NODE_ID", s.nodeId) && Updates(s)[2] == ("CLAW_GATEWAY_BASE_URL", s.gatewayBaseUrl)
    ensures Updates(s)[3] == ("CLAW_NODE_TOKEN", s.nodeToken)
    ensures Updates(s)[6] == ("CLAW_PAIRING_TRACE_ID", s.pairingTraceId)
  {
  }

  lemma WriteStoresCredentials(n: Node, s: Settings)
    requires CleanSettings(s) && NoDuplicates(n.(settings := s))
    ensures CredentialsStored(Node(s, Some(Persisted(n.file, Updates(s))), false))
  {
    CredentialEntries(s);
    WriteStoresEntry(n, s, 0, "CLAW_NODE_ID", s.nodeId);
    WriteStoresEntry(n, s, 2, "CLAW_GATEWAY_BASE_URL", s.gatewayBaseUrl);
    WriteStoresEntry(n, s, 3, "CLAW_NODE_TOKEN", s.nodeToken);
    WriteStoresEntry(n, s, 6, "CLAW_PAIRING_TRACE_ID", s.pairingTraceId);
  }

  lemma OtherEntries(s: Settings)
    ensures Updates(s)[1] == ("CLAW_NODE_KIND", s.nodeKind) && Updates(s)[5] == ("CLAW_PAIRING_KEY", s.pairingKey)
    ensures Updates(s)[4] == ("CLAW_LOCAL_DIRECT_AUTH", if s.localDirectAuth then "true" else "false")
    ensures Updates(s)[7] == ("CLAW_DISCOVERY_ENABLED", if s.discoveryEnabled then "true" else "false")
    ensures Updates(s)[8] == ("CLAW_DISCOVERY_PORT", s.discoveryPort)
    ensures Updates(s)[9] == ("CLAW_PAIRING_LABEL", s.pairingLabel) && Updates(s)[10] == ("CLAW_ENV_FILE", s.envFile)
    ensures Updates(s)[11] == ("CLAW_DIAGNOSTICS_DIR", s.diagnosticsDir)
    ensures Updates(s)[12] == ("CLAW_SERVICE_MODE", s.serviceMode)
    ensures Updates(s)[13] == ("CLAW_SERVICE_NAME", s.serviceName)
  {
  }

  /** A written pairing also leaves the rest of the node's settings readable, trimmed, each under
      its own key: how it is paired and discovered, */
  lemma WriteStoresDiscovery(n: Node, s: Settings)
    requires CleanSettings(s) && NoDuplicates(n.(settings := s))
    ensures var f := Some(Persisted(n.file, Updates(s)));
      Stored(f, "CLAW_PAIRING_KEY") == Some(Strip(s.pairingKey))
      && Stored(f, "CLAW_LOCAL_DIRECT_AUTH") == Some(if s.localDirectAuth then "true" else "false")
      && Stored(f, "CLAW_DISCOVERY_ENABLED") == Some(if s.discoveryEnabled then "true" else "false")
      && Stored(f, "CLAW_DISCOVERY_PORT") == Some(Strip(s.discoveryPort))
      && Stored(f, "CLAW_PAIRING_LABEL") == Some(Strip(s.pairingLabel))
  {
    OtherEntries(s);
    WriteStoresEntry(n, s, 4, "CLAW_LOCAL_DIRECT_AUTH", if s.localDirectAuth then "true" else "false");
    WriteStoresText(n, s, 5, "CLAW_PAIRING_KEY", s.pairingKey);
    WriteStoresEntry(n, s, 7, "CLAW_DISCOVERY_ENABLED", if s.discoveryEnabled then "true" else "false");
    WriteStoresText(n, s, 8, "CLAW_DISCOVERY_PORT", s.discoveryPort);
    WriteStoresText(n, s, 9, "CLAW_PAIRING_LABEL", s.pairingLabel);
  }

  /** and what kind of node it is and where it lives. */
  lemma WriteStoresService(n: Node, s: Settings)
    requires CleanSettings(s) && NoDuplicates(n.(settings := s))
    ensures var f := Some(Persisted(n.file, Updates(s)));
      Stored(f, "CLAW_NODE_KIND") == Some(Strip(s.nodeKind))
      && Stored(f, "CLAW_ENV_FILE") == Some(Strip(s.envFile))
      && Stored(f, "CLAW_DIAGNOSTICS_DIR") == Some(Strip(s.diagnosticsDir))
      && Stored(f, "CLAW_SERVICE_MODE") == Some(Strip(s.serviceMode))
      && Stored(f, "CLAW_SERVICE_NAME") == Some(Strip(s.serviceName))
  {
    OtherEntries(s);
    WriteStoresText(n, s, 1, "CLAW_NODE_KIND", s.nodeKind);
    WriteStoresText(n, s, 10, "CLAW_ENV_FILE", s.envFile);
    WriteStoresText(n, s, 11, "CLAW_DIAGNOSTICS_DIR", s.diagnosticsDir);
    WriteStoresText(n, s, 12, "CLAW_SERVICE_MODE", s.serviceMode);
    WriteStoresText(n, s, 13, "CLAW_SERVICE_NAME", s.serviceName);
  }

  lemma StepConsistent(n: Node, r: PairRequest, outcome: Outcome)
    requires Consistent(n) && CleanRequest(r)
    ensures Consistent(Handle(n, r, outcome).0)
  {
    match Decide(n.settings, r)
    case Refuse(_) =>
    case Accept(s) =>
      AcceptedIsClean(n.settings, r);
      forall key | Has(Updates(s), key) ensures Occurrences(ExistingLines(n.file), key) <= 1 {
        SameKeys(s, n.settings, key);
      }
      if !outcome.WriteError? {
        WriteStores(n, s);
      }
  }

  /** Main result: over any run of single-line requests, unless the last write attempt failed,
      a plain reader of the env file finds exactly the credentials held in memory. */
  lemma {:induction false} RunConsistent(n: Node, requests: seq<(PairRequest, Outcome)>)
    requires Consistent(n)
    requires forall i :: 0 <= i < |requests| ==> CleanRequest(requests[i].0)
    ensures Consistent(Run(n, requests))
  {
    if requests != [] {
      var last := requests[|requests| - 1];
      RunConsistent(n, requests[..|requests| - 1]);
      StepConsistent(Run(n, requests[..|requests| - 1]), last.0, last.1);
    }
  }

  lemma {:induction false} RunAllWritten(n: Node, requests: seq<(PairRequest, Outcome)>)
    requires Consistent(n) && !n.stale
    requires forall i :: 0 <= i < |requests| ==> CleanRequest(requests[i].0) && !requests[i].1.WriteError?
    ensures CredentialsStored(Run(n, requests)) && !Run(n, requests).stale
  {
    if requests != [] {
      RunAllWritten(n, requests[..|requests| - 1]);
      RunConsistent(n, requests);
    }
  }

  // ----- who is answered what -----

  /** Every refusal by its exact condition on the trimmed fields; a refusal changes nothing. */
  lemma RefusedIff(n: Node, r: PairRequest, outcome: Outcome)
    ensures var s := n.settings;
      var (m, reply) := Handle(n, r, outcome);
      var gateway, token, id := Strip(r.gatewayBaseUrl), Strip(r.nodeToken), Strip(r.nodeId);
      var keyed := Strip(s.pairingKey) != "" && Strip(r.pairingKey) == Strip(s.pairingKey);
      var same :=
        gateway == Strip(s.gatewayBaseUrl) && token == Strip(s.nodeToken) && (id == "" || id == Strip(s.nodeId));
      (reply == AuthFailed <==> !keyed)
      && (reply == AlreadyPaired <==> keyed && Strip(s.nodeToken) != "" && (gateway == "" || token == "" || same))
      && (reply == Incomplete <==> keyed && Strip(s.nodeToken) == "" && (gateway == "" || token == ""))
      && (reply in {AuthFailed, AlreadyPaired, Incomplete} ==> m == n)
      && (reply in {AuthFailed, AlreadyPaired, Incomplete} <==> Decide(s, r).Refuse?)
  {
  }

  /** An accepted request sets exactly the four credentials, to its trimmed fields; a blank node id
      falls back to the current one and then to the host name. */
  lemma AcceptedFields(n: Node, r: PairRequest, outcome: Outcome)
    requires Decide(n.settings, r).Accept?
    ensures var s := Handle(n, r, outcome).0.settings;
      s.gatewayBaseUrl == Strip(r.gatewayBaseUrl) && s.nodeToken == Strip(r.nodeToken)
      && s.pairingTraceId == Strip(r.pairingTraceId)
      && (Strip(r.nodeId) != "" ==> s.nodeId == Strip(r.nodeId))
      && (Strip(r.nodeId) == "" && Strip(n.settings.nodeId) != "" ==> s.nodeId == Strip(n.settings.nodeId))
      && (Strip(r.nodeId) == "" && Strip(n.settings.nodeId) == "" ==> s.nodeId == n.settings.hostname)
      && s.(gatewayBaseUrl := "", nodeToken := "", pairingTraceId := "", nodeId := "")
         == n.settings.(gatewayBaseUrl := "", nodeToken := "", pairingTraceId := "", nodeId := "")
  {
  }

  /** Over any run, requests that do not carry the node's key change nothing at all. */
  lemma {:induction false} KeyIsNeeded(n: Node, requests: seq<(PairRequest, Outcome)>)
    requires forall i :: 0 <= i < |requests| ==>
      Strip(n.settings.pairingKey) == "" || Strip(requests[i].0.pairingKey) != Strip(n.settings.pairingKey)
    ensures Run(n, requests) == n
  {
    if requests != [] {
      var last := requests[|requests| - 1];
      KeyIsNeeded(n, requests[..|requests| - 1]);
      RefusedIff(n, last.0, last.1);
    }
  }

  /** After any run the node's address, token and trace are those of the last accepted request. */
  lemma {:induction false} LastAcceptedWins(n: Node, requests: seq<(PairRequest, Outcome)>, i: nat)
    requires i < |requests| && Decide(Run(n, requests[..i]).settings, requests[i].0).Accept?
    requires forall j :: i < j < |requests| ==> Decide(Run(n, requests[..j]).settings, requests[j].0).Refuse?
    ensures var s, r := Run(n, requests).settings, requests[i].0;
      s.gatewayBaseUrl == Strip(r.gatewayBaseUrl) && s.nodeToken == Strip(r.nodeToken)
      && s.pairingTraceId == Strip(r.pairingTraceId)
  {
    var init := requests[..|requests| - 1];
    assert forall j :: 0 <= j <= |init| ==> requests[..j] == init[..j];
    if i < |init| {
      LastAcceptedWins(n, init, i);
      assert init[..|init|] == init;
    } else {
      AcceptedFields(Run(n, init), requests[i].0, requests[i].1);
    }
  }

  /** A pairing is reported exactly when the gateway registers a node that has an id; the
      accepted token and address never keep the loops from starting. */
  lemma PairedIff(n: Node, r: PairRequest, outcome: Outcome)
    requires Decide(n.settings, r).Accept?
    ensures Handle(n, r, outcome).1.Paired? <==>
      outcome.Registered?
      && (Strip(r.nodeId) != "" || Strip(n.settings.nodeId) != "" || Strip(n.settings.hostname) != "")
  {
    StripIdempotent(r.gatewayBaseUrl);
    StripIdempotent(r.nodeToken);
    StripIdempotent(r.nodeId);
    StripIdempotent(n.settings.nodeId);
  }

  /** An accepted request, repeated, is answered already_paired and changes nothing, whatever
      became of it the first time. */
  lemma RepeatIsAlreadyPaired(n: Node, r: PairRequest, first: Outcome, second: Outcome)
    requires Decide(n.settings, r).Accept?
    ensures var m := Handle(n, r, first).0; Handle(m, r, second) == (m, AlreadyPaired)
  {
    StripIdempotent(r.gatewayBaseUrl);
    StripIdempotent(r.nodeToken);
    StripIdempotent(r.nodeId);
    StripIdempotent(n.settings.nodeId);
  }

  /** So a failed write is not repaired by the gateway's retry: after both requests the file holds
      the credentials exactly when the first write succeeded or the file held them before. */
  lemma FailedWriteIsNotRetried(n: Node, r: PairRequest, first: Outcome, second: Outcome)
    requires CleanSettings(n.settings) && CleanRequest(r) && NoDuplicates(n) && Decide(n.settings, r).Accept?
    ensures var accepted := Decide(n.settings, r).settings;
      CredentialsStored(Handle(Handle(n, r, first).0, r, second).0)
      <==> !first.WriteError? || CredentialsStored(n.(settings := accepted))
  {
    var s := Decide(n.settings, r).settings;
    RepeatIsAlreadyPaired(n, r, first, second);
    if !first.WriteError? {
      AcceptedIsClean(n.settings, r);
      forall key | Has(Updates(s), key) ensures Occurrences(ExistingLines(n.file), key) <= 1 {
        SameKeys(s, n.settings, key);
      }
      WriteStoresCredentials(n, s);
    }
  }

  const UNPAIRED :=
    Node(Settings("", "", "", "", "k", "h", "local", false, true, "9531", "", "e", "d", "m", "n"), None, false)
  const REQUEST := PairRequest("g", "t", "", "k", "x")

  /** An instance: a node without env file, whose first write fails, answers the retry with
      already_paired and still has no file. */
  lemma RetryLeavesNoFile(second: Outcome)
    ensures var m := Handle(UNPAIRED, REQUEST, WriteError).0;
      Handle(m, REQUEST, second) == (m, AlreadyPaired) && m.file == None && !CredentialsStored(m)
  {
    StripTrimmed("");
    StripTrimmed("k");
    StripTrimmed("g");
    StripTrimmed("t");
    RepeatIsAlreadyPaired(UNPAIRED, REQUEST, WriteError, second);
    assert ReadLines([], Strip) == [];
  }
}
