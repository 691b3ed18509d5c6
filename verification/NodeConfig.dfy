/** The launcher's two configuration updates, as instances of the read-modify-write frame. */
module NodeConfig {
  import opened PythonText
  import opened OrderedDict
  import opened EnvCodec
  import opened EnvFile

  const CHANNEL_CAPACITY := "CLAW_CHANNEL_CAPACITY"
  const MAX_CONCURRENCY := "CLAW_MAX_CONCURRENCY"

  function Digit(n: nat): char
    requires n < 10
  {
    '0' + n as char
  }

  /** `str(n)` for a non-negative integer. */
  function Decimal(n: nat): string {
    if n < 10 then [Digit(n)] else Decimal(n / 10) + [Digit(n % 10)]
  }

  function AtLeastOne(n: int): nat { if n < 1 then 1 else n }

  function CapacityUpdates(channelCapacity: int, maxConcurrency: int): Entries {
    [(CHANNEL_CAPACITY, Decimal(AtLeastOne(channelCapacity))), (MAX_CONCURRENCY, Decimal(AtLeastOne(maxConcurrency)))]
  }

  /** A missing file reads like an empty one. */
  function TextOf(file: Option<string>): string { if file.Some? then file.value else "" }

  /** `_update_local_node_capacity_config` */
  method UpdateCapacityConfig(file: Option<string>, channelCapacity: int, maxConcurrency: int) returns (text: string)
    ensures text == Rewrite(TextOf(file), CapacityUpdates(channelCapacity, maxConcurrency))
  {
    var values := ReadEnvFile(file, Unescape);
    assert SplitLines("") == [];
    values := Put(values, CHANNEL_CAPACITY, Decimal(AtLeastOne(channelCapacity)));
    values := Put(values, MAX_CONCURRENCY, Decimal(AtLeastOne(maxConcurrency)));
    var u := CapacityUpdates(channelCapacity, maxConcurrency);
    PutAllPair(ReadEnv(TextOf(file)), u[0], u[1]);
    assert u == [u[0], u[1]];
    text := WriteEnv(values);
  }

  lemma PutAllPair(d: Entries, a: (string, string), b: (string, string))
    ensures PutAll(d, [a, b]) == Put(Put(d, a.0, a.1), b.0, b.1)
  {
    var u := [a, b];
    assert PutAll(d, u) == PutAll(Put(d, a.0, a.1), u[1..]);
    assert u[1..] == [b];
    assert PutAll(Put(d, a.0, a.1), [b]) == PutAll(Put(Put(d, a.0, a.1), b.0, b.1), [b][1..]);
  }

  /** Characters that no layer of the codec treats specially. */
  predicate Plain(c: char) { !IsSpace(c) && c != '\\' }

  lemma PlainStorable(v: string)
    requires forall i :: 0 <= i < |v| ==> Plain(v[i])
    ensures OnlyPlainBreaks(v) && Preserved(v)
  {
  }

  lemma {:induction false} DecimalPlain(n: nat)
    ensures forall i :: 0 <= i < |Decimal(n)| ==> Plain(Decimal(n)[i])
  {
    if n >= 10 {
      DecimalPlain(n / 10);
    }
  }

  /** Different numbers are written differently, so a reader that parses them gets them back. */
  lemma {:induction false} DecimalInjective(m: nat, n: nat)
    requires Decimal(m) == Decimal(n)
    ensures m == n
    decreases m
  {
    var s, t := Decimal(m), Decimal(n);
    assert s[|s| - 1] == t[|t| - 1];
    if m >= 10 && n >= 10 {
      assert Decimal(m / 10) == s[..|s| - 1] && Decimal(n / 10) == t[..|t| - 1];
      DecimalInjective(m / 10, n / 10);
    } else if m >= 10 {
      DecimalNonEmpty(m / 10);
    } else if n >= 10 {
      DecimalNonEmpty(n / 10);
    }
  }

  /** Reading the digits from left to right. */
  function DigitsValue(s: string): int {
    if s == "" then 0 else 10 * DigitsValue(s[..|s| - 1]) + (s[|s| - 1] as int - '0' as int)
  }

  /** A number is written by decimal digits of that value, without a leading zero. */
  lemma {:induction false} DecimalValue(n: nat)
    ensures DigitsValue(Decimal(n)) == n && |Decimal(n)| > 0 && (n > 0 ==> Decimal(n)[0] != '0')
    ensures forall i :: 0 <= i < |Decimal(n)| ==> '0' <= Decimal(n)[i] <= '9'
  {
    if n < 10 {
      assert Decimal(n)[..0] == "";
    } else {
      DecimalValue(n / 10);
      var s := Decimal(n);
      assert s[..|s| - 1] == Decimal(n / 10);
    }
  }

  lemma DecimalNonEmpty(n: nat)
    ensures |Decimal(n)| > 0
  {
  }

  lemma CapacityUpdatesStorable(channelCapacity: int, maxConcurrency: int)
    ensures Distinct(CapacityUpdates(channelCapacity, maxConcurrency))
    ensures Storable(CapacityUpdates(channelCapacity, maxConcurrency))
  {
    CapacityKeysSafe();
    DistinctByIndex(CapacityUpdates(channelCapacity, maxConcurrency));
    DecimalPlain(AtLeastOne(channelCapacity));
    PlainStorable(Decimal(AtLeastOne(channelCapacity)));
    DecimalPlain(AtLeastOne(maxConcurrency));
    PlainStorable(Decimal(AtLeastOne(maxConcurrency)));
  }

  lemma CapacityKeysSafe()
    ensures SafeKey(CHANNEL_CAPACITY) && SafeKey(MAX_CONCURRENCY)
  {
  }

  /** A capacity update changes its two keys and nothing else, exactly when no other value has
      edge whitespace that would be written unquoted. */
  lemma CapacityFrame(content: string, channelCapacity: int, maxConcurrency: int)
    ensures var u := CapacityUpdates(channelCapacity, maxConcurrency);
      ReadEnv(Rewrite(content, u)) == PutAll(ReadEnv(content), u)
      <==> forall e :: e in ReadEnv(content) && e.0 != CHANNEL_CAPACITY && e.0 != MAX_CONCURRENCY ==> EdgesKept(e.1)
  {
    var u := CapacityUpdates(channelCapacity, maxConcurrency);
    CapacityUpdatesStorable(channelCapacity, maxConcurrency);
    RewriteFrame(content, u);
    forall k ensures Has(u, k) <==> k == CHANNEL_CAPACITY || k == MAX_CONCURRENCY {
      HasIndex(u, k);
      assert u[0].0 == CHANNEL_CAPACITY && u[1].0 == MAX_CONCURRENCY;
    }
  }

  /** Whatever the file held, the two keys read back as the submitted numbers, at least 1. */
  lemma CapacityStored(content: string, channelCapacity: int, maxConcurrency: int)
    ensures var d := ReadEnv(Rewrite(content, CapacityUpdates(channelCapacity, maxConcurrency)));
      Lookup(d, "CLAW_CHANNEL_CAPACITY") == Some(Decimal(if channelCapacity >= 1 then channelCapacity else 1))
      && Lookup(d, "CLAW_MAX_CONCURRENCY") == Some(Decimal(if maxConcurrency >= 1 then maxConcurrency else 1))
  {
    var u := CapacityUpdates(channelCapacity, maxConcurrency);
    CapacityUpdatesStorable(channelCapacity, maxConcurrency);
    LookupEntry(u, 0);
    LookupEntry(u, 1);
    TargetTakes(content, u, CHANNEL_CAPACITY);
    TargetTakes(content, u, MAX_CONCURRENCY);
  }

  /** A file that fails the condition: a quoted value with a leading tab comes back without it. */
  const TABBED := "K=\"\tx\""

  lemma ReadTabbed()
    ensures ReadEnv(FileText([TABBED])) == [("K", "\tx")]
  {
    var text := "\"\tx\"";
    assert NoBreak(TABBED);
    SplitFileText([TABBED]);
    assert TABBED == Assignment("K", text);
    assert RStrip(text) == text;
    ParseAssignment("K", text);
    UnescapeTabbed();
    assert [TABBED][..0] == [];
    assert ReadLines([TABBED][..0], Unescape) == [];
  }

  lemma UnescapeTabbed()
    ensures Unescape("\"\tx\"") == "\tx"
  {
    StripTrimmed("\"\tx\"");
    assert "\"\tx\""[1..3] == "\tx";
    Replace2Length("\tx", '\\', '"', '"');
    Replace2Length("\tx", '\\', '\\', '\\');
    DenormalizeLength("\tx");
  }

  lemma TabbedValueIsTrimmed()
    ensures ReadEnv(FileText([TABBED])) == [("K", "\tx")]
    ensures var u := CapacityUpdates(1, 1);
      ReadEnv(Rewrite(FileText([TABBED]), u)) != PutAll(ReadEnv(FileText([TABBED])), u)
  {
    ReadTabbed();
    CapacityFrame(FileText([TABBED]), 1, 1);
    TabLosesEdge();
    var e := ("K", "\tx");
    assert e in ReadEnv(FileText([TABBED]));
  }

  lemma TabLosesEdge()
    ensures !EdgesKept("\tx")
  {
    Replace1Absent("\tx", '\r', "\\r");
    Replace1Absent("\tx", '\n', "\\n");
    assert Normalize("\tx") == "\tx";
  }

  // ----- model configuration -----

  /** The request; numbers and flags are already the text `str` gives them. */
  datatype ModelConfigRequest = ModelConfigRequest(
    modelProvider: string,
    openaiBaseUrl: string,
    openaiApiKey: string,
    clearOpenaiApiKey: bool,
    openaiModel: string,
    enableThinking: bool,
    temperature: string,
    topP: string,
    maxTokens: string,
    seed: string,
    thinkingBudget: string,
    stop: string,
    enableSearch: bool,
    searchForced: bool,
    searchStrategy: string,
    enableSearchExtension: bool,
    multimodalEnabled: bool,
    difyBaseUrl: string,
    difyApiKey: string,
    clearDifyApiKey: bool)

  function OrDefault(v: string, default: string): string { if v == "" then default else v }

  /** A blank key field leaves the stored key alone unless clearing was asked for. */
  function SecretUpdate(key: string, clear: bool, secret: string): Entries {
    if clear then [(key, "")] else if Strip(secret) != "" then [(key, Strip(secret))] else []
  }

  function ModelUpdates(p: ModelConfigRequest): Entries {
    HeadModelUpdates(p)
    + SecretUpdate("CLAW_OPENAI_API_KEY", p.clearOpenaiApiKey, p.openaiApiKey)
    + PlainModelUpdates(p)
    + SecretUpdate("CLAW_DIFY_API_KEY", p.clearDifyApiKey, p.difyApiKey)
  }

  /** `_update_local_node_model_config` */
  method UpdateModelConfig(file: Option<string>, p: ModelConfigRequest) returns (text: string)
    ensures text == Rewrite(TextOf(file), ModelUpdates(p))
  {
    var values := ReadEnvFile(file, Unescape);
    assert SplitLines("") == [];
    ghost var stored, head := values, HeadModelUpdates(p);
    values := PutAll(values, HeadModelUpdates(p));
    ghost var openai := SecretUpdate("CLAW_OPENAI_API_KEY", p.clearOpenaiApiKey, p.openaiApiKey);
    PutAllConcat(stored, head, openai);
    if p.clearOpenaiApiKey {
      values := Put(values, "CLAW_OPENAI_API_KEY", "");
    } else if Strip(p.openaiApiKey) != "" {
      values := Put(values, "CLAW_OPENAI_API_KEY", Strip(p.openaiApiKey));
    }
    PutAllConcat(stored, head + openai, PlainModelUpdates(p));
    values := PutAll(values, PlainModelUpdates(p));
    ghost var dify := SecretUpdate("CLAW_DIFY_API_KEY", p.clearDifyApiKey, p.difyApiKey);
    PutAllConcat(stored, head + openai + PlainModelUpdates(p), dify);
    if p.clearDifyApiKey {
      values := Put(values, "CLAW_DIFY_API_KEY", "");
    } else if Strip(p.difyApiKey) != "" {
      values := Put(values, "CLAW_DIFY_API_KEY", Strip(p.difyApiKey));
    }
    text := WriteEnv(values);
  }

  function HeadModelUpdates(p: ModelConfigRequest): (u: Entries)
    ensures |u| == 2 && forall i :: 0 <= i < 2 ==> u[i].0 == MODEL_KEYS[i]
  {
    [("CLAW_MODEL_PROVIDER", OrDefault(Strip(OrDefault(p.modelProvider, "auto")), "auto")),
     ("CLAW_OPENAI_BASE_URL", Strip(p.openaiBaseUrl))]
  }

  function PlainModelUpdates(p: ModelConfigRequest): (u: Entries)
    ensures |u| == 14 && forall i :: 0 <= i < 14 ==> u[i].0 == MODEL_KEYS[3 + i]
  {
    [("CLAW_OPENAI_MODEL", Strip(p.openaiModel)),
     ("CLAW_OPENAI_ENABLE_THINKING", Flag(p.enableThinking)),
     ("CLAW_OPENAI_TEMPERATURE", p.temperature),
     ("CLAW_OPENAI_TOP_P", p.topP),
     ("CLAW_OPENAI_MAX_TOKENS", p.maxTokens),
     ("CLAW_OPENAI_SEED", p.seed),
     ("CLAW_OPENAI_THINKING_BUDGET", p.thinkingBudget),
     ("CLAW_OPENAI_STOP", p.stop),
     ("CLAW_OPENAI_ENABLE_SEARCH", Flag(p.enableSearch)),
     ("CLAW_OPENAI_SEARCH_FORCED", Flag(p.searchForced)),
     ("CLAW_OPENAI_SEARCH_STRATEGY", OrDefault(Strip(p.searchStrategy), "turbo")),
     ("CLAW_OPENAI_ENABLE_SEARCH_EXTENSION", Flag(p.enableSearchExtension)),
     ("CLAW_OPENAI_MULTIMODAL_ENABLED", Flag(p.multimodalEnabled)),
     ("CLAW_DIFY_BASE_URL", Strip(p.difyBaseUrl))]
  }

  /** Every key an update can touch, in writing order. */
  const MODEL_KEYS: seq<string> := [
    "CLAW_MODEL_PROVIDER", "CLAW_OPENAI_BASE_URL", "CLAW_OPENAI_API_KEY", "CLAW_OPENAI_MODEL",
    "CLAW_OPENAI_ENABLE_THINKING", "CLAW_OPENAI_TEMPERATURE", "CLAW_OPENAI_TOP_P", "CLAW_OPENAI_MAX_TOKENS",
    "CLAW_OPENAI_SEED", "CLAW_OPENAI_THINKING_BUDGET", "CLAW_OPENAI_STOP", "CLAW_OPENAI_ENABLE_SEARCH",
    "CLAW_OPENAI_SEARCH_FORCED", "CLAW_OPENAI_SEARCH_STRATEGY", "CLAW_OPENAI_ENABLE_SEARCH_EXTENSION",
    "CLAW_OPENAI_MULTIMODAL_ENABLED", "CLAW_DIFY_BASE_URL", "CLAW_DIFY_API_KEY"]

  lemma ModelKeysDistinct()
    ensures forall i, j :: 0 <= i < j < |MODEL_KEYS| ==> MODEL_KEYS[i] != MODEL_KEYS[j]
  {
  }

  lemma ConcatenatedKeys(h: Entries, o: Entries, m: Entries, t: Entries)
    requires |h| == 2 && |o| <= 1 && |m| == 14 && |t| <= 1
    requires forall i :: 0 <= i < 2 ==> h[i].0 == MODEL_KEYS[i]
    requires o != [] ==> o[0].0 == MODEL_KEYS[2]
    requires forall i :: 0 <= i < 14 ==> m[i].0 == MODEL_KEYS[3 + i]
    requires t != [] ==> t[0].0 == MODEL_KEYS[17]
    ensures |h + o + m + t| <= 17 + |o|
    ensures forall i :: 0 <= i < |h + o + m + t| ==>
      (h + o + m + t)[i].0 == MODEL_KEYS[if i < 2 then i else i + 1 - |o|]
  {
    var u := h + o + m + t;
    forall i | 0 <= i < |u| ensures u[i].0 == MODEL_KEYS[if i < 2 then i else i + 1 - |o|] {
      if 2 + |o| <= i < 16 + |o| {
        assert u[i] == m[i - 2 - |o|];
      }
    }
  }

  /** The keys of an update, by position: the list above without the secrets left alone. */
  lemma ModelUpdateKeys(p: ModelConfigRequest) returns (skipped: nat)
    ensures skipped == if !p.clearOpenaiApiKey && Strip(p.openaiApiKey) == "" then 1 else 0
    ensures FollowsKeys(ModelUpdates(p), MODEL_KEYS, skipped)
  {
    var o := SecretUpdate("CLAW_OPENAI_API_KEY", p.clearOpenaiApiKey, p.openaiApiKey);
    var t := SecretUpdate("CLAW_DIFY_API_KEY", p.clearDifyApiKey, p.difyApiKey);
    skipped := 1 - |o|;
    ConcatenatedKeys(HeadModelUpdates(p), o, PlainModelUpdates(p), t);
  }

  /** `u` has the keys of `keys` in order, leaving out the third when `skipped` is 1. */
  ghost predicate FollowsKeys(u: Entries, keys: seq<string>, skipped: nat) {
    |u| + skipped <= |keys| && forall i :: 0 <= i < |u| ==> u[i].0 == keys[if i < 2 then i else i + skipped]
  }

  lemma FollowedKeys(u: Entries, keys: seq<string>, skipped: nat)
    requires |keys| > 2 && forall i, j :: 0 <= i < j < |keys| ==> keys[i] != keys[j]
    requires skipped <= 1 && FollowsKeys(u, keys, skipped)
    ensures Distinct(u) && (skipped == 1 ==> !Has(u, keys[2]))
  {
    DistinctByIndex(u);
    HasIndex(u, keys[2]);
  }

  lemma ModelUpdatesDistinct(p: ModelConfigRequest)
    ensures Distinct(ModelUpdates(p))
  {
    var skipped := ModelUpdateKeys(p);
    ModelKeysDistinct();
    FollowedKeys(ModelUpdates(p), MODEL_KEYS, skipped);
  }

  /** A model-config update changes exactly its own keys, if and only if each submitted value is
      one the file can hold and no untouched value loses its edges. */
  lemma ModelFrame(content: string, p: ModelConfigRequest)
    ensures var u := ModelUpdates(p);
      ReadEnv(Rewrite(content, u)) == PutAll(ReadEnv(content), u)
      <==> Storable(u) && OthersKept(content, u)
  {
    ModelUpdatesDistinct(p);
    RewriteFrame(content, ModelUpdates(p));
  }

  lemma BlankSecretAbsent(p: ModelConfigRequest)
    requires !p.clearOpenaiApiKey && Strip(p.openaiApiKey) == ""
    ensures Distinct(ModelUpdates(p)) && !Has(ModelUpdates(p), "CLAW_OPENAI_API_KEY")
  {
    var skipped := ModelUpdateKeys(p);
    ModelKeysDistinct();
    FollowedKeys(ModelUpdates(p), MODEL_KEYS, skipped);
  }

  lemma BlankDifyAbsent(p: ModelConfigRequest)
    requires !p.clearDifyApiKey && Strip(p.difyApiKey) == ""
    ensures Distinct(ModelUpdates(p)) && !Has(ModelUpdates(p), "CLAW_DIFY_API_KEY")
  {
    var u := ModelUpdates(p);
    var skipped := ModelUpdateKeys(p);
    ModelUpdatesDistinct(p);
    assert |u| + skipped == 17;
    LastKeyAbsent(u, MODEL_KEYS, skipped);
  }

  lemma LastKeyAbsent(u: Entries, keys: seq<string>, skipped: nat)
    requires |keys| == 18 && forall i, j :: 0 <= i < j < |keys| ==> keys[i] != keys[j]
    requires skipped <= 1 && FollowsKeys(u, keys, skipped) && |u| + skipped == 17
    ensures !Has(u, keys[17])
  {
    HasIndex(u, keys[17]);
  }

  /** Submitting the form with a blank Dify key keeps the stored one. */
  lemma BlankDifyKept(content: string, p: ModelConfigRequest)
    requires !p.clearDifyApiKey && Strip(p.difyApiKey) == ""
    ensures var u := ModelUpdates(p); Storable(u) && OthersKept(content, u) ==>
      Lookup(ReadEnv(Rewrite(content, u)), "CLAW_DIFY_API_KEY") == Lookup(ReadEnv(content), "CLAW_DIFY_API_KEY")
  {
    var u := ModelUpdates(p);
    BlankDifyAbsent(p);
    if Storable(u) && OthersKept(content, u) {
      RewriteLookup(content, u, "CLAW_DIFY_API_KEY");
    }
  }

  /** Submitting the form with a blank API key keeps the key stored in the file. */
  lemma BlankSecretKept(content: string, p: ModelConfigRequest)
    requires !p.clearOpenaiApiKey && Strip(p.openaiApiKey) == ""
    ensures var u := ModelUpdates(p); Storable(u) && OthersKept(content, u) ==>
      Lookup(ReadEnv(Rewrite(content, u)), "CLAW_OPENAI_API_KEY") == Lookup(ReadEnv(content), "CLAW_OPENAI_API_KEY")
  {
    var u := ModelUpdates(p);
    BlankSecretAbsent(p);
    if Storable(u) && OthersKept(content, u) {
      RewriteLookup(content, u, "CLAW_OPENAI_API_KEY");
    }
  }

  // ----- the values under the keys -----

  lemma EntryLookup(u: Entries, e: (string, string))
    requires Distinct(u) && e in u
    ensures Lookup(u, e.0) == Some(e.1)
  {
    var i :| 0 <= i < |u| && u[i] == e;
    LookupEntry(u, i);
  }

  lemma ModelEntry(p: ModelConfigRequest, e: (string, string))
    requires e in HeadModelUpdates(p) || e in PlainModelUpdates(p)
      || e in SecretUpdate("CLAW_OPENAI_API_KEY", p.clearOpenaiApiKey, p.openaiApiKey)
      || e in SecretUpdate("CLAW_DIFY_API_KEY", p.clearDifyApiKey, p.difyApiKey)
    ensures Lookup(ModelUpdates(p), e.0) == Some(e.1)
  {
    ModelUpdatesDistinct(p);
    EntryLookup(ModelUpdates(p), e);
  }

  /** Every text field of the request goes under its own key. */
  lemma ModelTexts(p: ModelConfigRequest)
    ensures var u := ModelUpdates(p);
      Lookup(u, "CLAW_OPENAI_BASE_URL") == Some(Strip(p.openaiBaseUrl))
      && Lookup(u, "CLAW_OPENAI_MODEL") == Some(Strip(p.openaiModel))
      && Lookup(u, "CLAW_OPENAI_TEMPERATURE") == Some(p.temperature)
      && Lookup(u, "CLAW_OPENAI_TOP_P") == Some(p.topP)
      && Lookup(u, "CLAW_OPENAI_MAX_TOKENS") == Some(p.maxTokens)
      && Lookup(u, "CLAW_OPENAI_SEED") == Some(p.seed)
      && Lookup(u, "CLAW_OPENAI_THINKING_BUDGET") == Some(p.thinkingBudget)
      && Lookup(u, "CLAW_OPENAI_STOP") == Some(p.stop)
      && Lookup(u, "CLAW_DIFY_BASE_URL") == Some(Strip(p.difyBaseUrl))
  {
    var m := PlainModelUpdates(p);
    ModelEntry(p, HeadModelUpdates(p)[1]);
    ModelEntry(p, m[0]);
    ModelEntry(p, m[2]);
    ModelEntry(p, m[3]);
    ModelEntry(p, m[4]);
    ModelEntry(p, m[5]);
    ModelEntry(p, m[6]);
    ModelEntry(p, m[7]);
    ModelEntry(p, m[13]);
  }

  /** Every switch is spelled out under its own key. */
  lemma ModelSwitches(p: ModelConfigRequest)
    ensures var u := ModelUpdates(p);
      Lookup(u, "CLAW_OPENAI_ENABLE_THINKING") == Some(if p.enableThinking then "true" else "false")
      && Lookup(u, "CLAW_OPENAI_ENABLE_SEARCH") == Some(if p.enableSearch then "true" else "false")
      && Lookup(u, "CLAW_OPENAI_SEARCH_FORCED") == Some(if p.searchForced then "true" else "false")
      && Lookup(u, "CLAW_OPENAI_ENABLE_SEARCH_EXTENSION") == Some(if p.enableSearchExtension then "true" else "false")
      && Lookup(u, "CLAW_OPENAI_MULTIMODAL_ENABLED") == Some(if p.multimodalEnabled then "true" else "false")
  {
    var m := PlainModelUpdates(p);
    ModelEntry(p, m[1]);
    ModelEntry(p, m[8]);
    ModelEntry(p, m[9]);
    ModelEntry(p, m[11]);
    ModelEntry(p, m[12]);
  }

  /** A blank provider means `auto`, a blank search strategy `turbo`. */
  lemma ModelDefaults(p: ModelConfigRequest)
    ensures var u := ModelUpdates(p);
      Lookup(u, "CLAW_MODEL_PROVIDER") == Some(if Strip(p.modelProvider) == "" then "auto" else Strip(p.modelProvider))
      && Lookup(u, "CLAW_OPENAI_SEARCH_STRATEGY")
         == Some(if Strip(p.searchStrategy) == "" then "turbo" else Strip(p.searchStrategy))
  {
    ProviderDefault(p.modelProvider);
    ModelEntry(p, HeadModelUpdates(p)[0]);
    ModelEntry(p, PlainModelUpdates(p)[10]);
  }

  lemma ProviderDefault(provider: string)
    ensures OrDefault(Strip(OrDefault(provider, "auto")), "auto")
      == if Strip(provider) == "" then "auto" else Strip(provider)
  {
    StripTrimmed("auto");
    StripTrimmed("");
  }

  /** A secret is emptied when clearing is asked for, else set when the field is not blank. */
  lemma ModelSecrets(p: ModelConfigRequest)
    ensures var u := ModelUpdates(p);
      (p.clearOpenaiApiKey ==> Lookup(u, "CLAW_OPENAI_API_KEY") == Some(""))
      && (!p.clearOpenaiApiKey && Strip(p.openaiApiKey) != "" ==>
            Lookup(u, "CLAW_OPENAI_API_KEY") == Some(Strip(p.openaiApiKey)))
      && (p.clearDifyApiKey ==> Lookup(u, "CLAW_DIFY_API_KEY") == Some(""))
      && (!p.clearDifyApiKey && Strip(p.difyApiKey) != "" ==>
            Lookup(u, "CLAW_DIFY_API_KEY") == Some(Strip(p.difyApiKey)))
  {
    var o := SecretUpdate("CLAW_OPENAI_API_KEY", p.clearOpenaiApiKey, p.openaiApiKey);
    var t := SecretUpdate("CLAW_DIFY_API_KEY", p.clearDifyApiKey, p.difyApiKey);
    if o != [] {
      ModelEntry(p, o[0]);
    }
    if t != [] {
      ModelEntry(p, t[0]);
    }
  }

  /** Whatever the file held, a storable model update reads back as itself. */
  lemma ModelStored(content: string, p: ModelConfigRequest, key: string)
    requires Storable(ModelUpdates(p)) && Has(ModelUpdates(p), key)
    ensures Lookup(ReadEnv(Rewrite(content, ModelUpdates(p))), key) == Lookup(ModelUpdates(p), key)
  {
    ModelUpdatesDistinct(p);
    TargetTakes(content, ModelUpdates(p), key);
  }
}
