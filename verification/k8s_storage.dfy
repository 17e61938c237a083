/** Storage-class parameter names and boolean parameter parsing
    (pkg/common/k8s-storage.go). */
module K8sStorage {
  import opened Wrappers

  const ParameterStorageDomainName := "ovirtStorageDomain"
  const ParameterDiskThinProvisioning := "ovirtDiskThinProvisioning"
  const ParameterFsType := "fsType"

  /** The literals Go's `strconv.ParseBool` accepts as true. */
  const TrueLiterals: set<string> := {"1", "t", "T", "TRUE", "true", "True"}

  /** The literals Go's `strconv.ParseBool` accepts as false. */
  const FalseLiterals: set<string> := {"0", "f", "F", "FALSE", "false", "False"}

  /** `strconv.ParseBool`: `None` stands for its syntax error. */
  function ParseBool(s: string): (r: Option<bool>)
    ensures r == Some(true) <==> s in TrueLiterals
    ensures r == Some(false) <==> s in FalseLiterals
  {
    match s
    case "1" => Some(true)
    case "t" => Some(true)
    case "T" => Some(true)
    case "TRUE" => Some(true)
    case "true" => Some(true)
    case "True" => Some(true)
    case "0" => Some(false)
    case "f" => Some(false)
    case "F" => Some(false)
    case "FALSE" => Some(false)
    case "false" => Some(false)
    case "False" => Some(false)
    case _ => None
  }

  /** The parsed value when the string is a boolean literal, the default otherwise. */
  function ParseBoolParam(value: string, defaultValue: bool): (b: bool)
    ensures value in TrueLiterals ==> b
    ensures value in FalseLiterals ==> !b
    ensures value !in TrueLiterals && value !in FalseLiterals ==> b == defaultValue
  {
    ParseBool(value).GetOr(defaultValue)
  }

  /** A map lookup of a missing key yields Go's zero string. */
  function Param(params: map<string, string>, key: string): (v: string)
    ensures key in params ==> v == params[key]
    ensures key !in params ==> v == ""
  {
    if key in params then params[key] else ""
  }

  /** The two literal sets do not overlap, so a literal decides the result
      whatever the default, and only a non-literal lets the default through. */
  lemma ParseBoolParamIgnoresDefaultIff(value: string)
    ensures ParseBoolParam(value, true) == ParseBoolParam(value, false)
            <==> value in TrueLiterals + FalseLiterals
  {
    if value in TrueLiterals {
      assert ParseBool(value) == Some(true);
    } else if value in FalseLiterals {
      assert ParseBool(value) == Some(false);
    } else {
      assert ParseBool(value) == None;
    }
  }

  /** A missing parameter (the empty string) yields the default. */
  lemma MissingParamGivesDefault(params: map<string, string>, key: string, defaultValue: bool)
    requires key !in params
    ensures ParseBoolParam(Param(params, key), defaultValue) == defaultValue
  {
    assert "" !in TrueLiterals && "" !in FalseLiterals;
  }
}
