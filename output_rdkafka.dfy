// The Kafka output: the formats it takes, its configuration from key/value
// options, the producer settings its init routine applies, and which
// messages its produce routine hands to the producer. librdkafka itself is
// not modelled: init is represented by the settings it passes to
// rd_kafka_conf_set, produce by the message it passes to rd_kafka_producev.

module OutputRdkafka {
  import opened OutputCommon
  import opened Common

  /** out_rdkafka_ctx_t as configured. The SASL fields stay NULL (None)
      unless all four are given. */
  datatype KafkaConfig = KafkaConfig(
    brokers: string,
    topic: string,
    saslUsername: Option<string>,
    saslPassword: Option<string>,
    saslMechanism: Option<string>,
    securityProtocol: Option<string>,
    acks: string,
    verboseLog: bool)

  /** out_rdkafka_supports_format: only formats other than the three are refused. */
  function SupportsFormat(format: OutputFormat): (b: bool)
    ensures !b <==> format == OfmtOther
  {
    match format
    case OfmtText => true
    case OfmtBasestation => true
    case OfmtJson => true
    case _ => false
  }

  const SaslKeys: set<string> := {"sasl_username", "sasl_password", "sasl_mechanism", "security_protocol"}

  predicate AllSaslKeys(kv: Kvargs) {
    "sasl_username" in kv && "sasl_password" in kv && "sasl_mechanism" in kv && "security_protocol" in kv
  }

  /** The SASL field for a key: set only when all four SASL keys are given. */
  function SaslField(kv: Kvargs, key: string): (r: Option<string>)
    ensures r.Some? <==> AllSaslKeys(kv) && key in kv
    ensures r.Some? ==> r.value == kv[key]
  {
    if AllSaslKeys(kv) then KvargsGet(kv, key) else None
  }

  /** out_rdkafka_configure. */
  function Configure(kv: Kvargs): (cfg: Option<KafkaConfig>)
    ensures cfg.None? <==> "brokers" !in kv || "topic" !in kv
    ensures cfg.Some? ==> cfg.value.brokers == kv["brokers"] && cfg.value.topic == kv["topic"]
    ensures cfg.Some? ==> (cfg.value.acks == if "acks" in kv then kv["acks"] else "all")
    ensures cfg.Some? ==> (cfg.value.verboseLog <==> "verbose_log" in kv && kv["verbose_log"] == "true")
    ensures cfg.Some? ==> (cfg.value.saslUsername.Some? <==> AllSaslKeys(kv))
  {
    match KvargsGet(kv, "brokers")
    case None => None
    case Some(brokers) =>
      match KvargsGet(kv, "topic")
      case None => None
      case Some(topic) =>
        var acks := match KvargsGet(kv, "acks") case Some(a) => a case None => "all";
        var verbose := match KvargsGet(kv, "verbose_log") case Some(v) => v == "true" case None => false;
        Some(KafkaConfig(brokers, topic,
          SaslField(kv, "sasl_username"), SaslField(kv, "sasl_password"),
          SaslField(kv, "sasl_mechanism"), SaslField(kv, "security_protocol"),
          acks, verbose))
  }

  /** The settings out_rdkafka_init passes to rd_kafka_conf_set, in order.
      The SASL settings are applied only when all four fields are set. */
  function InitSettings(cfg: KafkaConfig): (settings: seq<(string, string)>)
    ensures |settings| >= 2 && settings[0] == ("bootstrap.servers", cfg.brokers) && settings[1] == ("acks", cfg.acks)
    ensures |settings| == 6 <==> cfg.saslUsername.Some? && cfg.saslPassword.Some?
                                 && cfg.saslMechanism.Some? && cfg.securityProtocol.Some?
    ensures |settings| != 6 ==> |settings| == 2
  {
    var base := [("bootstrap.servers", cfg.brokers), ("acks", cfg.acks)];
    match (cfg.saslUsername, cfg.saslPassword, cfg.saslMechanism, cfg.securityProtocol)
    case (Some(u), Some(p), Some(m), Some(s)) =>
      base + [("sasl.mechanism", m), ("sasl.username", u), ("sasl.password", p), ("security.protocol", s)]
    case _ => base
  }

  predicate HasSetting(settings: seq<(string, string)>, key: string, val: string) {
    exists i :: 0 <= i < |settings| && settings[i] == (key, val)
  }

  /** Configure and init together: SASL authentication is switched on exactly
      when all four SASL options are given, with their values; the brokers
      and the acks setting are always passed, acks defaulting to "all". */
  lemma SaslIffAllFourKeys(kv: Kvargs)
    requires "brokers" in kv && "topic" in kv
    ensures var cfg := Configure(kv).value;
      AllSaslKeys(kv) <==> |InitSettings(cfg)| == 6
    ensures var settings := InitSettings(Configure(kv).value);
      AllSaslKeys(kv) ==>
        HasSetting(settings, "sasl.mechanism", kv["sasl_mechanism"]) &&
        HasSetting(settings, "sasl.username", kv["sasl_username"]) &&
        HasSetting(settings, "sasl.password", kv["sasl_password"]) &&
        HasSetting(settings, "security.protocol", kv["security_protocol"])
    ensures var settings := InitSettings(Configure(kv).value);
      !AllSaslKeys(kv) ==> forall i :: 0 <= i < |settings| ==> settings[i].0 in {"bootstrap.servers", "acks"}
    ensures var settings := InitSettings(Configure(kv).value);
      settings[0] == ("bootstrap.servers", kv["brokers"]) &&
      settings[1] == ("acks", if "acks" in kv then kv["acks"] else "all")
  {
    var cfg := Configure(kv).value;
    var settings := InitSettings(cfg);
    if AllSaslKeys(kv) {
      assert settings[2] == ("sasl.mechanism", kv["sasl_mechanism"]);
      assert settings[3] == ("sasl.username", kv["sasl_username"]);
      assert settings[4] == ("sasl.password", kv["sasl_password"]);
      assert settings[5] == ("security.protocol", kv["security_protocol"]);
    }
  }

  const KafkaKeys: set<string> := {"brokers", "topic", "acks", "verbose_log"} + SaslKeys

  /** Options the output does not know make no difference. */
  lemma ConfigureReadsOnlyItsKeys(kv: Kvargs, other: Kvargs)
    requires Restrict(kv, KafkaKeys) == Restrict(other, KafkaKeys)
    ensures Configure(kv) == Configure(other)
  {
    forall k | k in KafkaKeys
      ensures (k in kv <==> k in other) && (k in kv ==> kv[k] == other[k])
    {
      assert k in Restrict(kv, KafkaKeys) <==> k in kv;
    }
  }

  /** out_rdkafka_produce_text: messages shorter than two bytes are not
      produced. */
  function ProduceText(msg: seq<Common.byte>): Option<seq<Common.byte>> {
    if |msg| < 2 then None else Some(msg)
  }

  /** What one produce call does: its return value and the message handed
      to the producer, if any. */
  datatype Produced = Produced(ret: int, sent: Option<seq<Common.byte>>)

  /** out_rdkafka_produce. */
  function Produce(format: OutputFormat, msg: seq<Common.byte>): (r: Produced)
    ensures r.ret == 0
    ensures r.sent.Some? ==> r.sent.value == msg && SupportsFormat(format)
  {
    if format == OfmtText || format == OfmtJson || format == OfmtBasestation then Produced(0, ProduceText(msg))
    else Produced(0, None)
  }

  /** A message is produced exactly when its format is supported and it has
      at least two bytes; it is sent whole, and produce never reports an
      error. */
  lemma ProduceSendsSupported(format: OutputFormat, msg: seq<Common.byte>)
    ensures Produce(format, msg).ret == 0
    ensures Produce(format, msg).sent.Some? <==> SupportsFormat(format) && |msg| >= 2
    ensures Produce(format, msg).sent.Some? ==> Produce(format, msg).sent.value == msg
  {
  }
}
