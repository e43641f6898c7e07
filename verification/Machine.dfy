/** Machine integers of the modelled program. */
module Machine {
  const MAX_USIZE: nat := 0xFFFF_FFFF_FFFF_FFFF
  const MAX_U64: nat := 0xFFFF_FFFF_FFFF_FFFF

  function SaturatingAdd(a: nat, b: nat): (r: nat)
    ensures r <= MAX_USIZE && r <= a + b && (r == a + b || r == MAX_USIZE)
  {
    if a + b > MAX_USIZE then MAX_USIZE else a + b
  }

  function SaturatingMul(a: nat, b: nat): (r: nat)
    ensures r <= MAX_USIZE && r <= a * b && (r == a * b || r == MAX_USIZE)
  {
    if a * b > MAX_USIZE then MAX_USIZE else a * b
  }

  function SaturatingSub(a: nat, b: nat): (r: nat)
    ensures r <= a && r >= a - b && (r == a - b || r == 0)
  {
    if b > a then 0 else a - b
  }

  function Min(a: nat, b: nat): (r: nat)
    ensures r <= a && r <= b && (r == a || r == b)
  {
    if a < b then a else b
  }
}
