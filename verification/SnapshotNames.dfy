/** How snapshot directories are named. */
module SnapshotNames {

  function Digit(n: nat): (c: char)
    requires n < 10
    ensures '0' <= c <= '9'
  {
    ['0', '1', '2', '3', '4', '5', '6', '7', '8', '9'][n]
  }

  function Decimal(n: nat): (s: string)
    ensures s != "" && forall i :: 0 <= i < |s| ==> '0' <= s[i] <= '9'
  {
    if n < 10 then [Digit(n)] else Decimal(n / 10) + [Digit(n % 10)]
  }

  /** `{step_id}-{plugin_id}-{epoch_ms}`. */
  function SnapshotName(stepId: string, itemId: string, now: nat): string {
    stepId + "-" + itemId + "-" + Decimal(now)
  }
}
