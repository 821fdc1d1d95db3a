// Machine integers.
module Machine {
  import opened Tokens

  newtype u8 = x: int | 0 <= x < 256

  // `u8::try_from`
  function TryU8(n: nat): Option<u8> {
    if n < 256 then Some(n as u8) else None
  }

  // A truncating `as u8`.
  function AsU8(n: nat): u8 { (n % 256) as u8 }

  // The cast truncates nothing exactly where the checked conversion succeeds.
  lemma AsU8Exactly(n: nat)
    ensures AsU8(n) as nat == n <==> TryU8(n).Some?
    ensures n < 256 ==> TryU8(n) == Some(AsU8(n))
  {
  }

  lemma TryU8Exactly(n: nat)
    ensures if n < 256 then TryU8(n) == Some(n as u8) && AsU8(n) == n as u8 else TryU8(n) == None
  {
  }
}
