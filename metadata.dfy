/**
 * The shared `program_metadata.json` mapping: program name -> record, in
 * document order, and the two conventions every process applies to it.
 */
module Metadata {
  import opened Json
  import Decimal

  /** One `(program_name, config)` pair of `metadata.items()`. */
  type Entry = (string, Json)

  /** `config.get("enabled", False)` is truthy: an absent flag means disabled. */
  predicate IsEnabled(record: seq<(string, Json)>) {
    Truthy(GetOr(record, "enabled", JBool(false)))
  }

  /** `f"slot{n}.gif"`: the GIF file of slot n. */
  function SlotFileName(n: nat): (r: string)
    ensures |r| > 8 && r[..4] == "slot" && r[|r| - 4..] == ".gif"
  {
    "slot" + Decimal.NatToString(n) + ".gif"
  }

  /** Distinct slots have distinct file names. */
  lemma SlotFileNameInjective(a: nat, b: nat)
    ensures SlotFileName(a) == SlotFileName(b) ==> a == b
  {
    var sa, sb := SlotFileName(a), SlotFileName(b);
    assert sa[4..|sa| - 4] == Decimal.NatToString(a);
    assert sb[4..|sb| - 4] == Decimal.NatToString(b);
    Decimal.NatToStringInjective(a, b);
  }
}
