/** Names of temporary files and directories. */
module Temps {

  /** The prefix every temporary file or directory name begins with. */
  const TEMP_PREFIX := ".tmp"

  predicate TempName(n: string)
  {
    TEMP_PREFIX <= n
  }

  /** A fresh temporary name. */
  method FreshName(taken: set<string>) returns (name: string)
    ensures TempName(name) && name !in taken
  {
    name := *;
    if TempName(name) && name !in taken {
      return;
    }
    name := TEMP_PREFIX;
    var left := taken;
    while name in taken
      invariant TempName(name) && left <= taken
      invariant forall n :: n in taken && n !in left ==> |n| < |name|
      decreases left
    {
      left := left - {name};
      name := name + "0";
    }
  }
}
