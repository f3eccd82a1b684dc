/** Writing strings into character buffers. */
module Buffers {
  method Put(out: array<char>, p: nat, s: string) returns (q: nat)
    requires p + |s| <= out.Length
    modifies out
    ensures q == p + |s| && out[..q] == old(out[..p]) + s
  {
    q := p;
    for i := 0 to |s|
      invariant q == p + i && out[..q] == old(out[..p]) + s[..i]
    {
      out[q] := s[i];
      q := q + 1;
    }
  }
}
