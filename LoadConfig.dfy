/** The validity check `load_config_file` applies to a parsed configuration
    before building backup objects from it, and the branch it then takes.
    Only the keys present matter. */
module LoadConfig {

  /** What `load_config_file` ends in: the "Config file is invalid."
      exception, one backup object for `source`, a list for `sources`, no
      return value at all when neither key is present, or the TypeError of
      building a backup object without its `destination` argument. */
  datatype Loaded = Invalid | Single | Multiple | NoBackup | MissingDestination

  /** The check as the code writes it: `not 'destination' not in cfg and
      (...)` reads as `'destination' in cfg and (...)`, so a configuration is
      refused only when it has a destination but no source. */
  predicate RejectedAsWritten(keys: set<string>)
  {
    !("destination" !in keys) && ("source" !in keys && "sources" !in keys)
  }

  /** `load_config_file` as written. A configuration that passes the check
      goes on to the `source` branch, the `sources` branch, or past both. */
  function LoadAsWritten(keys: set<string>): (r: Loaded)
    ensures r == Invalid <==> "destination" in keys && "source" !in keys && "sources" !in keys
    ensures r == NoBackup <==> "destination" !in keys && "source" !in keys && "sources" !in keys
    ensures r == MissingDestination <==> "destination" !in keys && "source" in keys
  {
    if RejectedAsWritten(keys) then Invalid
    else if "source" in keys then (if "destination" in keys then Single else MissingDestination)
    else if "sources" in keys then Multiple
    else NoBackup
  }

  /** `load_config_file` as intended: a configuration is refused when it
      lacks a destination, or has neither a single source nor a list of
      sources; whatever passes builds backup objects. */
  function Load(keys: set<string>): (r: Loaded)
    ensures r != Invalid ==> "destination" in keys && ("source" in keys || "sources" in keys)
    ensures r != NoBackup && r != MissingDestination
    ensures "destination" in keys && "source" in keys ==> r == Single
  {
    if "destination" !in keys || ("source" !in keys && "sources" !in keys) then Invalid
    else if "source" in keys then Single
    else Multiple
  }

  /** A configuration without a destination passes the check as written and
      fails later, or silently builds nothing; the intended check refuses
      it. */
  lemma MissingDestinationAccepted()
    ensures LoadAsWritten({"source"}) == MissingDestination && Load({"source"}) == Invalid
    ensures LoadAsWritten({}) == NoBackup && Load({}) == Invalid
  {
    assert "destination" !in {"source"} && "source" in {"source"};
  }

  /** The check as written refuses everything the intended one refuses that
      has a destination, and the two agree on every configuration with a
      destination: they differ only without one. */
  lemma AsWrittenMissesOnlyNoDestination(keys: set<string>)
    ensures LoadAsWritten(keys) == Invalid ==> Load(keys) == Invalid
    ensures "destination" in keys ==> LoadAsWritten(keys) == Load(keys)
    ensures LoadAsWritten(keys) != Load(keys) ==> "destination" !in keys && Load(keys) == Invalid
  {
  }
}
