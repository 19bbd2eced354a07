/** The host: any operation it carries out may fail. */
module Hosts {

  /** Whether one operation succeeds; on a healthy host it does. */
  method Luck(healthy: bool) returns (ok: bool)
    ensures healthy ==> ok
  {
    ok := *;
    ok := ok || healthy;
  }
}
