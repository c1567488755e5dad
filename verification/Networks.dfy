/** Private networks in CIDR notation, as net/netip reads and masks them. */
module Networks {

  /** An address as its bits, the most significant first. */
  datatype Prefix = Prefix(v6: bool, addr: seq<bool>, bits: nat)

  predicate WellFormed(p: Prefix) {
    |p.addr| == (if p.v6 then 128 else 32) && p.bits <= |p.addr|
  }

  type Cidr = p: Prefix | WellFormed(p) witness Prefix(false, seq(32, i => false), 0)

  /** A network as text, told by what it parses to. */
  datatype Network = Block(cidr: Cidr) | Malformed(text: string)

  function Masked(p: Cidr): Cidr {
    p.(addr := p.addr[..p.bits] + seq(|p.addr| - p.bits, i => false))
  }

  function Canonical(n: Network): Network {
    if n.Block? then Block(Masked(n.cidr)) else n
  }

  /** An address of the block: the same family and the same leading bits. */
  predicate Contains(p: Cidr, v6: bool, a: seq<bool>) {
    v6 == p.v6 && |a| == |p.addr| && a[..p.bits] == p.addr[..p.bits]
  }

  ghost predicate SameBlock(p: Cidr, q: Cidr) {
    forall v6, a :: Contains(p, v6, a) <==> Contains(q, v6, a)
  }

  function Flipped(p: Cidr, k: nat): seq<bool>
    requires k < |p.addr|
  {
    p.addr[k := !p.addr[k]]
  }

  /** Masking names a block by its lowest address: two masked networks are equal
      exactly when they hold the same addresses (section 3.1 of RFC 4632). */
  lemma MaskedNamesTheBlock(p: Cidr, q: Cidr)
    ensures Masked(p) == Masked(q) <==> SameBlock(p, q)
    ensures Masked(Masked(p)) == Masked(p)
  {
    MaskKeepsBlock(p);
    MaskKeepsBlock(q);
    assert SameBlock(p, q) ==> Contains(p, q.v6, q.addr) && Contains(q, p.v6, p.addr) by {
      assert Contains(p, p.v6, p.addr) && Contains(q, q.v6, q.addr);
    }
    LongerLeavesOut(p, q);
    LongerLeavesOut(q, p);
  }

  lemma MaskKeepsBlock(p: Cidr)
    ensures SameBlock(p, Masked(p))
    ensures Masked(Masked(p)) == Masked(p)
  {
    assert Masked(p).addr[..p.bits] == p.addr[..p.bits];
  }

  /** Of two prefixes of one address the longer leaves addresses out. */
  lemma LongerLeavesOut(p: Cidr, q: Cidr)
    ensures p.bits < q.bits && Contains(p, q.v6, q.addr) ==> !SameBlock(p, q)
  {
    if p.bits < q.bits && Contains(p, q.v6, q.addr) {
      var a := Flipped(q, q.bits - 1);
      assert a[..p.bits] == q.addr[..p.bits];
      assert Contains(p, q.v6, a);
      assert a[..q.bits][q.bits - 1] != q.addr[..q.bits][q.bits - 1];
      assert !Contains(q, q.v6, a);
    }
  }
}
