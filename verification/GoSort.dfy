/** Go's sort.Search. */
module GoSort {

  /** The smallest index in [0, n] at which `f`, false and then true, is true. */
  method Search(n: nat, f: nat --> bool) returns (i: nat)
    requires forall k: nat :: k < n ==> f.requires(k)
    requires forall j: nat, k: nat :: j <= k < n && f(j) ==> f(k)
    ensures i <= n
    ensures forall k: nat :: k < i ==> !f(k)
    ensures forall k: nat :: i <= k < n ==> f(k)
  {
    i := 0;
    var j := n;
    while i < j
      invariant 0 <= i <= j <= n
      invariant forall k: nat :: k < i ==> !f(k)
      invariant forall k: nat :: j <= k < n ==> f(k)
    {
      var h := (i + j) / 2;
      if !f(h) {
        i := h + 1;
      } else {
        j := h;
      }
    }
  }
}
