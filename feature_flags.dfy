/** Feature flags (lib/featureFlags.ts): booleans kept in sessionStorage
    under `ff_<name>` as '1' or '0'. A storage that throws makes reads give
    the default and writes do nothing. */
module FeatureFlags {
  import opened Base

  const FLAG_PREFIX := "ff_"

  function FlagKey(name: string): string {
    FLAG_PREFIX + name
  }

  function Encode(on: bool): string {
    if on then "1" else "0"
  }

  /** flag(name, def): an absent or empty value gives the default, '1'
      gives true and any other value false. */
  function FlagValue(items: map<string, string>, failing: bool, name: string, def: bool): (r: bool)
    ensures failing || FlagKey(name) !in items || items[FlagKey(name)] == "" ==> r == def
    ensures !failing && FlagKey(name) in items && items[FlagKey(name)] != "" ==>
      (r <==> items[FlagKey(name)] == "1")
  {
    if failing then def
    else if FlagKey(name) !in items || items[FlagKey(name)] == "" then def
    else items[FlagKey(name)] == "1"
  }

  /** Distinct names have distinct keys. */
  lemma FlagKeyInjective(a: string, b: string)
    requires FlagKey(a) == FlagKey(b)
    ensures a == b
  {
    assert a == FlagKey(a)[|FLAG_PREFIX|..];
    assert b == FlagKey(b)[|FLAG_PREFIX|..];
  }

  /** What setFlag writes, flag reads back, whatever the default. */
  lemma FlagReadsBackWritten(items: map<string, string>, name: string, on: bool, def: bool)
    ensures FlagValue(items[FlagKey(name) := Encode(on)], false, name, def) == on
  {
  }

  /** Writing one flag leaves every other flag's reading as it was. */
  lemma SetFlagLeavesOthers(items: map<string, string>, name: string, on: bool, other: string, def: bool)
    requires other != name
    ensures FlagValue(items[FlagKey(name) := Encode(on)], false, other, def) == FlagValue(items, false, other, def)
  {
    if FlagKey(other) == FlagKey(name) {
      FlagKeyInjective(other, name);
    }
  }

  /** The page's sessionStorage. `failing` stands for a storage whose
      calls throw. */
  class SessionStorage {
    var items: map<string, string>
    const failing: bool

    constructor (items: map<string, string>, failing: bool)
      ensures this.items == items && this.failing == failing
    {
      this.items := items;
      this.failing := failing;
    }

    function Flag(name: string, def: bool): bool
      reads this
    {
      FlagValue(items, failing, name, def)
    }

    /** setFlag: writes '1' or '0' under the flag's key; a failing storage
        is left as it is. */
    method SetFlag(name: string, on: bool)
      modifies this
      ensures items == if failing then old(items) else old(items)[FlagKey(name) := Encode(on)]
      ensures !failing ==> forall def :: Flag(name, def) == on
    {
      if !failing {
        items := items[FlagKey(name) := Encode(on)];
      }
    }
  }
}
