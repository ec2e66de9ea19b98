// The TCP output: the formats it takes, its configuration from key/value
// options, and which messages its produce routine writes to the socket.
// Name resolution, the connection and the socket itself are not modelled:
// a produce call is represented by the bytes it hands to write().

module OutputTcp {
  import opened OutputCommon
  import opened Common

  /** out_tcp_ctx_t as configured; sockfd is set later by init. */
  datatype TcpConfig = TcpConfig(address: string, port: string)

  /** out_tcp_supports_format: JSON and every other format are refused. */
  function SupportsFormat(format: OutputFormat): (b: bool)
    ensures !b <==> format in {OfmtJson, OfmtOther}
  {
    match format
    case OfmtText => true
    case OfmtBasestation => true
    case _ => false
  }

  /** out_tcp_configure: fails (NULL) when "address" or "port" is missing,
      otherwise keeps both values. */
  function Configure(kv: Kvargs): (cfg: Option<TcpConfig>)
    ensures cfg.None? <==> "address" !in kv || "port" !in kv
    ensures cfg.Some? ==> cfg.value == TcpConfig(kv["address"], kv["port"])
  {
    match KvargsGet(kv, "address")
    case None => None
    case Some(address) =>
      match KvargsGet(kv, "port")
      case None => None
      case Some(port) => Some(TcpConfig(address, port))
  }

  const TcpKeys: set<string> := {"address", "port"}

  /** Options other than address and port make no difference. */
  lemma ConfigureReadsOnlyItsKeys(kv: Kvargs, other: Kvargs)
    requires Restrict(kv, TcpKeys) == Restrict(other, TcpKeys)
    ensures Configure(kv) == Configure(other)
  {
    assert ("address" in kv <==> "address" in other) && ("port" in kv <==> "port" in other) by {
      assert "address" in TcpKeys && "port" in TcpKeys;
    }
  }

  /** What one produce call does: its return value and the bytes written to
      the socket, if any. */
  datatype Produced = Produced(ret: int, written: Option<seq<Common.byte>>)

  /** out_tcp_produce_text: an empty message is not written. A failed write
      is only logged. */
  function ProduceText(msg: seq<Common.byte>): Option<seq<Common.byte>> {
    if |msg| < 1 then None else Some(msg)
  }

  /** out_tcp_produce: only TEXT and BASESTATION messages go to the text
      path; the result is always 0. */
  function Produce(format: OutputFormat, msg: seq<Common.byte>): (r: Produced)
    ensures r.ret == 0
    ensures r.written.Some? ==> r.written.value == msg && SupportsFormat(format)
  {
    if format == OfmtText || format == OfmtBasestation then Produced(0, ProduceText(msg))
    else Produced(0, None)
  }

  /** A message is written exactly when its format is one the output
      supports and it is not empty; it is written whole and unchanged, and
      produce never reports an error. */
  lemma ProduceWritesSupported(format: OutputFormat, msg: seq<Common.byte>)
    ensures Produce(format, msg).ret == 0
    ensures Produce(format, msg).written.Some? <==> SupportsFormat(format) && |msg| > 0
    ensures Produce(format, msg).written.Some? ==> Produce(format, msg).written.value == msg
  {
  }
}
