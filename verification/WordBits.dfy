/** One bit of a 32-bit word. */
module WordBits {
  const FULL_WORD: bv32 := 0xFFFF_FFFF

  predicate Get(w: bv32, i: bv6)
    requires i < 32
  {
    (w >> i) & 1 == 1
  }

  function Set(w: bv32, i: bv6): bv32
    requires i < 32
  {
    w | (1 << i)
  }

  function Clear(w: bv32, i: bv6): bv32
    requires i < 32
  {
    w & !(1 << i)
  }

  lemma GetSet(w: bv32, i: bv6, j: bv6)
    requires i < 32 && j < 32
    ensures Get(Set(w, i), j) <==> j == i || Get(w, j)
  {
  }

  lemma GetClear(w: bv32, i: bv6, j: bv6)
    requires i < 32 && j < 32
    ensures Get(Clear(w, i), j) <==> j != i && Get(w, j)
  {
  }

  lemma GetFull(i: bv6)
    requires i < 32
    ensures Get(FULL_WORD, i)
  {
  }

  predicate Bit(w: bv32, i: nat)
    requires i < 32
  {
    Get(w, i as bv6)
  }

  lemma SameIndex(i: nat, j: nat)
    requires i < 32 && j < 32
    ensures i as bv6 == j as bv6 <==> i == j
  {
    assert (i as bv6) as nat == i && (j as bv6) as nat == j;
  }

  lemma BitAfter(w: bv32, i: nat, j: nat)
    requires i < 32 && j < 32
    ensures Bit(Set(w, i as bv6), j) <==> j == i || Bit(w, j)
    ensures Bit(Clear(w, i as bv6), j) <==> j != i && Bit(w, j)
    ensures Bit(FULL_WORD, j)
  {
    hide Get, Set, Clear;
    SameIndex(i, j);
    GetSet(w, i as bv6, j as bv6);
    GetClear(w, i as bv6, j as bv6);
    GetFull(j as bv6);
  }
}
