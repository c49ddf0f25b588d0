/**
  The round constants of sha256.c as decisions on the index.
 */
module Sha256Tables {

  /** K256[t]. */
  function K(t: nat): bv32
    requires t < 64
  {
    (if t < 32 then
     (if t < 16 then
      (if t < 8 then
       (if t < 4 then
        (if t == 0 then 0x428a2f98 else if t == 1 then 0x71374491 else if t == 2 then 0xb5c0fbcf else 0xe9b5dba5)
       else
        (if t == 4 then 0x3956c25b else if t == 5 then 0x59f111f1 else if t == 6 then 0x923f82a4 else 0xab1c5ed5))
      else
       (if t < 12 then
        (if t == 8 then 0xd807aa98 else if t == 9 then 0x12835b01 else if t == 10 then 0x243185be else 0x550c7dc3)
       else
        (if t == 12 then 0x72be5d74 else if t == 13 then 0x80deb1fe else if t == 14 then 0x9bdc06a7 else 0xc19bf174)))
     else
      (if t < 24 then
       (if t < 20 then
        (if t == 16 then 0xe49b69c1 else if t == 17 then 0xefbe4786 else if t == 18 then 0x0fc19dc6 else 0x240ca1cc)
       else
        (if t == 20 then 0x2de92c6f else if t == 21 then 0x4a7484aa else if t == 22 then 0x5cb0a9dc else 0x76f988da))
      else
       (if t < 28 then
        (if t == 24 then 0x983e5152 else if t == 25 then 0xa831c66d else if t == 26 then 0xb00327c8 else 0xbf597fc7)
       else
        (if t == 28 then 0xc6e00bf3 else if t == 29 then 0xd5a79147 else if t == 30 then 0x06ca6351 else 0x14292967))))
    else
     (if t < 48 then
      (if t < 40 then
       (if t < 36 then
        (if t == 32 then 0x27b70a85 else if t == 33 then 0x2e1b2138 else if t == 34 then 0x4d2c6dfc else 0x53380d13)
       else
        (if t == 36 then 0x650a7354 else if t == 37 then 0x766a0abb else if t == 38 then 0x81c2c92e else 0x92722c85))
      else
       (if t < 44 then
        (if t == 40 then 0xa2bfe8a1 else if t == 41 then 0xa81a664b else if t == 42 then 0xc24b8b70 else 0xc76c51a3)
       else
        (if t == 44 then 0xd192e819 else if t == 45 then 0xd6990624 else if t == 46 then 0xf40e3585 else 0x106aa070)))
     else
      (if t < 56 then
       (if t < 52 then
        (if t == 48 then 0x19a4c116 else if t == 49 then 0x1e376c08 else if t == 50 then 0x2748774c else 0x34b0bcb5)
       else
        (if t == 52 then 0x391c0cb3 else if t == 53 then 0x4ed8aa4a else if t == 54 then 0x5b9cca4f else 0x682e6ff3))
      else
       (if t < 60 then
        (if t == 56 then 0x748f82ee else if t == 57 then 0x78a5636f else if t == 58 then 0x84c87814 else 0x8cc70208)
       else
        (if t == 60 then 0x90befffa else if t == 61 then 0xa4506ceb else if t == 62 then 0xbef9a3f7 else 0xc67178f2)))))
  }

  /** The first 64 primes. */
  function Prime(t: nat): nat
    requires t < 64
  {
    if t < 32 then
     (if t < 16 then
      (if t < 8 then
       (if t < 4 then
        (if t == 0 then 2 else if t == 1 then 3 else if t == 2 then 5 else 7)
       else
        (if t == 4 then 11 else if t == 5 then 13 else if t == 6 then 17 else 19))
      else
       (if t < 12 then
        (if t == 8 then 23 else if t == 9 then 29 else if t == 10 then 31 else 37)
       else
        (if t == 12 then 41 else if t == 13 then 43 else if t == 14 then 47 else 53)))
     else
      (if t < 24 then
       (if t < 20 then
        (if t == 16 then 59 else if t == 17 then 61 else if t == 18 then 67 else 71)
       else
        (if t == 20 then 73 else if t == 21 then 79 else if t == 22 then 83 else 89))
      else
       (if t < 28 then
        (if t == 24 then 97 else if t == 25 then 101 else if t == 26 then 103 else 107)
       else
        (if t == 28 then 109 else if t == 29 then 113 else if t == 30 then 127 else 131))))
    else
     (if t < 48 then
      (if t < 40 then
       (if t < 36 then
        (if t == 32 then 137 else if t == 33 then 139 else if t == 34 then 149 else 151)
       else
        (if t == 36 then 157 else if t == 37 then 163 else if t == 38 then 167 else 173))
      else
       (if t < 44 then
        (if t == 40 then 179 else if t == 41 then 181 else if t == 42 then 191 else 193)
       else
        (if t == 44 then 197 else if t == 45 then 199 else if t == 46 then 211 else 223)))
     else
      (if t < 56 then
       (if t < 52 then
        (if t == 48 then 227 else if t == 49 then 229 else if t == 50 then 233 else 239)
       else
        (if t == 52 then 241 else if t == 53 then 251 else if t == 54 then 257 else 263))
      else
       (if t < 60 then
        (if t == 56 then 269 else if t == 57 then 271 else if t == 58 then 277 else 281)
       else
        (if t == 60 then 283 else if t == 61 then 293 else if t == 62 then 307 else 311))))
  }

  /** The integer part of the cube root of a prime below 343. */
  function Root(p: nat): nat {
    if p < 8 then 1 else if p < 27 then 2 else if p < 64 then 3 else if p < 125 then 4 else if p < 216 then 5 else 6
  }

  function Cube(x: nat): nat { x * x * x }

  /** k is the fractional part of the cube root of p in units of 2^-32, rounded down. */
  predicate CubeFraction(p: nat, k: nat) {
    var x := Root(p) * 0x1_0000_0000 + k;
    k < 0x1_0000_0000 && Cube(x) <= p * 0x1_0000_0000_0000_0000_0000_0000 < Cube(x + 1)
  }

  predicate IsConstant(t: nat)
    requires t < 64
  {
    CubeFraction(Prime(t), K(t) as nat)
  }

  lemma Constants0()
    ensures IsConstant(0) && IsConstant(1) && IsConstant(2) && IsConstant(3)
    ensures IsConstant(4) && IsConstant(5) && IsConstant(6) && IsConstant(7)
  {
  }

  lemma Constants1()
    ensures IsConstant(8) && IsConstant(9) && IsConstant(10) && IsConstant(11)
    ensures IsConstant(12) && IsConstant(13) && IsConstant(14) && IsConstant(15)
  {
  }

  lemma Constants2()
    ensures IsConstant(16) && IsConstant(17) && IsConstant(18) && IsConstant(19)
    ensures IsConstant(20) && IsConstant(21) && IsConstant(22) && IsConstant(23)
  {
  }

  lemma Constants3()
    ensures IsConstant(24) && IsConstant(25) && IsConstant(26) && IsConstant(27)
    ensures IsConstant(28) && IsConstant(29) && IsConstant(30) && IsConstant(31)
  {
  }

  lemma Constants4()
    ensures IsConstant(32) && IsConstant(33) && IsConstant(34) && IsConstant(35)
    ensures IsConstant(36) && IsConstant(37) && IsConstant(38) && IsConstant(39)
  {
  }

  lemma Constants5()
    ensures IsConstant(40) && IsConstant(41) && IsConstant(42) && IsConstant(43)
    ensures IsConstant(44) && IsConstant(45) && IsConstant(46) && IsConstant(47)
  {
  }

  lemma Constants6()
    ensures IsConstant(48) && IsConstant(49) && IsConstant(50) && IsConstant(51)
    ensures IsConstant(52) && IsConstant(53) && IsConstant(54) && IsConstant(55)
  {
  }

  lemma Constants7()
    ensures IsConstant(56) && IsConstant(57) && IsConstant(58) && IsConstant(59)
    ensures IsConstant(60) && IsConstant(61) && IsConstant(62) && IsConstant(63)
  {
  }

  lemma EveryConstant(t: nat)
    requires t < 64
    ensures IsConstant(t)
  {
    hide IsConstant;
    Constants0();
    Constants1();
    Constants2();
    Constants3();
    Constants4();
    Constants5();
    Constants6();
    Constants7();
    assert t == 0 || t == 1 || t == 2 || t == 3 || t == 4 || t == 5 || t == 6 || t == 7
        || t == 8 || t == 9 || t == 10 || t == 11 || t == 12 || t == 13 || t == 14 || t == 15
        || t == 16 || t == 17 || t == 18 || t == 19 || t == 20 || t == 21 || t == 22 || t == 23
        || t == 24 || t == 25 || t == 26 || t == 27 || t == 28 || t == 29 || t == 30 || t == 31
        || t == 32 || t == 33 || t == 34 || t == 35 || t == 36 || t == 37 || t == 38 || t == 39
        || t == 40 || t == 41 || t == 42 || t == 43 || t == 44 || t == 45 || t == 46 || t == 47
        || t == 48 || t == 49 || t == 50 || t == 51 || t == 52 || t == 53 || t == 54 || t == 55
        || t == 56 || t == 57 || t == 58 || t == 59 || t == 60 || t == 61 || t == 62 || t == 63;
  }

  /** The constants are those of section 4.2.2 of FIPS 180-4: the cube roots of the first 64 primes. */
  lemma ConstantsAreCubeRoots(t: nat)
    requires t < 64
    ensures CubeFraction(Prime(t), K(t) as nat)
  {
    hide CubeFraction, Prime, K;
    EveryConstant(t);
  }
}
