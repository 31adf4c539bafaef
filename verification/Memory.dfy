module Memory {
  // memmove: the blocks may overlap.
  method Move<T>(dst: array<T>, to: nat, src: array<T>, from: nat, n: nat)
    requires to + n <= dst.Length && from + n <= src.Length
    modifies dst
    ensures forall i :: 0 <= i < dst.Length ==>
              dst[i] == if to <= i < to + n then old(src[i - to + from]) else old(dst[i])
  {
    forall i | 0 <= i < n { dst[to + i] := src[from + i]; }
  }

  method Store<T>(dst: array<T>, to: nat, data: seq<T>)
    requires to + |data| <= dst.Length
    modifies dst
    ensures forall i :: 0 <= i < dst.Length ==> dst[i] == if to <= i < to + |data| then data[i - to] else old(dst[i])
  {
    forall i | 0 <= i < |data| { dst[to + i] := data[i]; }
  }
}
