/** The two closed tags of a run's configuration: the operating mode and the DNS
    query policy, with the string values the command line and the reports use. */
module Config {
  import opened Wrappers

  /** Whether direct contact with the target is allowed at all. */
  datatype Mode = Passive | LowNoise

  /** Which DNS queries against the target are allowed. `NoDns` is the value "none". */
  datatype DnsPolicy = NoDns | Minimal | Full

  function ModeValue(m: Mode): string {
    match m
    case Passive => "passive"
    case LowNoise => "low-noise"
  }

  /** The enum constructor `Mode(value)`; `None` where it raises `ValueError`. */
  function ModeFromValue(v: string): (r: Option<Mode>)
    ensures r.Some? ==> ModeValue(r.value) == v
  {
    if v == "passive" then Some(Passive)
    else if v == "low-noise" then Some(LowNoise)
    else None
  }

  function DnsPolicyValue(p: DnsPolicy): string {
    match p
    case NoDns => "none"
    case Minimal => "minimal"
    case Full => "full"
  }

  /** The enum constructor `DnsPolicy(value)`; `None` where it raises `ValueError`. */
  function DnsPolicyFromValue(v: string): (r: Option<DnsPolicy>)
    ensures r.Some? ==> DnsPolicyValue(r.value) == v
  {
    if v == "none" then Some(NoDns)
    else if v == "minimal" then Some(Minimal)
    else if v == "full" then Some(Full)
    else None
  }
}
