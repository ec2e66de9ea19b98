// Types shared by the formatters and the outputs: the output formats, the
// kinds of formatter input, and the key/value options of an output.

module OutputCommon {
  import opened Common


  /** output_format_t. Values other than the three the modelled code tests
      are represented by OfmtOther. */
  datatype OutputFormat = OfmtText | OfmtJson | OfmtBasestation | OfmtOther

  /** fmtr_input_type_t, as far as the modelled code tells its values apart. */
  datatype FmtrInputType = FmtrIntypeDecodedFrame | FmtrIntypeRawFrame | FmtrIntypeUnknown

  /** kvargs: the key=value options given for an output. */
  type Kvargs = map<string, string>

  /** kvargs_get: the value of a key, NULL (None) when it is absent. */
  function KvargsGet(kv: Kvargs, key: string): (r: Option<string>)
    ensures r.Some? <==> key in kv
    ensures r.Some? ==> r.value == kv[key]
  {
    if key in kv then Some(kv[key]) else None
  }

  /** The options an output reads, and nothing else. */
  function Restrict(kv: Kvargs, keys: set<string>): (r: Kvargs)
    ensures forall k :: k in r <==> k in kv && k in keys
    ensures forall k :: k in r ==> r[k] == kv[k]
  {
    map k | k in kv && k in keys :: kv[k]
  }
}
