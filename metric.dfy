/** A family's declared options: its name parts, dimensions and help text. */
module Metric {
  import Strings
  import opened Outcomes

  datatype MetricOptions = MetricOptions(
    name: string,
    subsystem: string,
    namespace: string,
    dimensions: seq<string>,
    help: string)

  /** The fatal configuration errors raised when a family is declared. */
  datatype ConfigError = IllegalName | IllegalHelp | NoQuantiles

  /** `MetricOptions.deriveName`: `namespace_subsystem_name`, empty parts left out. */
  function DeriveName(o: MetricOptions): string {
    if o.namespace != "" && o.subsystem != "" then o.namespace + "_" + o.subsystem + "_" + o.name
    else if o.namespace != "" then o.namespace + "_" + o.name
    else if o.subsystem != "" then o.subsystem + "_" + o.name
    else o.name
  }

  /** The non-empty name parts, outermost first. */
  function Components(o: MetricOptions): seq<string> {
    (if o.namespace != "" then [o.namespace] else [])
    + (if o.subsystem != "" then [o.subsystem] else [])
    + [o.name]
  }

  /** The derived name is the non-empty parts joined with `_`. */
  lemma DeriveNameIsJoin(o: MetricOptions)
    ensures DeriveName(o) == Strings.Join(Components(o), '_')
  {
    var c := Components(o);
    if o.namespace != "" && o.subsystem != "" {
      assert c == [o.namespace, o.subsystem, o.name];
      assert c[1..] == [o.subsystem, o.name];
      assert Strings.Join(c[1..], '_') == o.subsystem + "_" + o.name;
    } else if o.namespace != "" {
      assert c == [o.namespace, o.name];
    } else if o.subsystem != "" {
      assert c == [o.subsystem, o.name];
    } else {
      assert c == [o.name];
    }
  }

  /** The base name always ends the derived name. */
  lemma NameIsSuffix(o: MetricOptions)
    ensures |o.name| <= |DeriveName(o)|
    ensures DeriveName(o)[|DeriveName(o)| - |o.name|..] == o.name
  {
  }

  /** `MetricOptions.validate`: Name is checked first, then Help. */
  function Validate(o: MetricOptions): (r: Option<ConfigError>)
    ensures r == None <==> o.name != "" && o.help != ""
    ensures o.name == "" ==> r == Some(IllegalName)
    ensures o.name != "" && o.help == "" ==> r == Some(IllegalHelp)
  {
    if o.name == "" then Some(IllegalName)
    else if o.help == "" then Some(IllegalHelp)
    else None
  }
}
