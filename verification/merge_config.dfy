/**
 * `mergeConfig`: overlay a partial configuration on a default one, key by
 * key. A configuration object is a map from key to value; in the partial one
 * a value may be `undefined` (`None`), which reads the same as a missing key.
 */
module MergeConfigs {
  import opened Wrappers

  /** The value conf gives for key, unless it is undefined. */
  predicate Overrides<K, V>(conf: map<K, Option<V>>, key: K) {
    key in conf && conf[key].Some?
  }

  /**
   * Without a partial configuration the default comes back as it is;
   * otherwise the result has exactly the default's keys, each taken from
   * conf unless conf leaves it undefined.
   */
  method MergeConfig<K, V>(defaultConf: map<K, V>, conf: Option<map<K, Option<V>>>) returns (r: map<K, V>)
    ensures conf.None? ==> r == defaultConf
    ensures r.Keys == defaultConf.Keys
    ensures forall key :: key in r ==>
              r[key] == if conf.Some? && Overrides(conf.value, key) then conf.value[key].value else defaultConf[key]
    ensures conf.Some? && (forall key :: key in conf.value ==> conf.value[key].None?) ==> r == defaultConf
  {
    if conf.None? {
      return defaultConf;
    }
    var c := conf.value;
    var pending := defaultConf.Keys;
    r := map[];
    while pending != {}
      invariant pending <= defaultConf.Keys
      invariant r.Keys == defaultConf.Keys - pending
      invariant forall key :: key in r ==> r[key] == if Overrides(c, key) then c[key].value else defaultConf[key]
      decreases pending
    {
      var key :| key in pending;
      var val := if key in c then c[key] else None;
      r := r[key := if val.Some? then val.value else defaultConf[key]];
      pending := pending - {key};
    }
  }
}
