/** The `isMax` CEL binding (internal/config/func_isMaxBinding.go). */
module IsMax {
  import opened Cel

  /** isMaxBinding: true iff there are at least two arguments, all integers, and the first is strictly the largest. */
  method IsMaxBinding(args: seq<Val>) returns (r: bool)
    ensures |args| < 2 ==> !r
    ensures |args| > 0 && !args[0].IntVal? ==> !r
    ensures r <==> |args| >= 2 && args[0].IntVal? &&
                   forall k :: 1 <= k < |args| ==> args[k].IntVal? && args[k].i < args[0].i
    ensures forall k :: 1 <= k < |args| && args[k] == args[0] ==> !r
  {
    if |args| < 2 {
      return false;
    }
    if !args[0].IntVal? {
      return false;
    }
    var first := args[0].i;
    var k := 1;
    while k < |args|
      invariant 1 <= k <= |args|
      invariant forall j :: 1 <= j < k ==> args[j].IntVal? && args[j].i < first
    {
      var v := args[k];
      if !v.IntVal? || first <= v.i {
        return false;
      }
      k := k + 1;
    }
    return true;
  }
}
