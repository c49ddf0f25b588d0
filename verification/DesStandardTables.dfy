/**
  The tables of FIPS 46-3 that des.c keeps for reference only, as decisions on the index. Bit
  positions count from 1 at the left.
 */
module DesStandardTables {

  /** The initial permutation. */
  function Ip(k: nat): (r: nat)
    requires k < 64
    ensures 1 <= r <= 64
  {
    (if k < 32 then
     (if k < 16 then
      (if k < 8 then
       (if k < 4 then
        (if k == 0 then 58 else if k == 1 then 50 else if k == 2 then 42 else 34)
       else
        (if k == 4 then 26 else if k == 5 then 18 else if k == 6 then 10 else 2))
      else
       (if k < 12 then
        (if k == 8 then 60 else if k == 9 then 52 else if k == 10 then 44 else 36)
       else
        (if k == 12 then 28 else if k == 13 then 20 else if k == 14 then 12 else 4)))
     else
      (if k < 24 then
       (if k < 20 then
        (if k == 16 then 62 else if k == 17 then 54 else if k == 18 then 46 else 38)
       else
        (if k == 20 then 30 else if k == 21 then 22 else if k == 22 then 14 else 6))
      else
       (if k < 28 then
        (if k == 24 then 64 else if k == 25 then 56 else if k == 26 then 48 else 40)
       else
        (if k == 28 then 32 else if k == 29 then 24 else if k == 30 then 16 else 8))))
    else
     (if k < 48 then
      (if k < 40 then
       (if k < 36 then
        (if k == 32 then 57 else if k == 33 then 49 else if k == 34 then 41 else 33)
       else
        (if k == 36 then 25 else if k == 37 then 17 else if k == 38 then 9 else 1))
      else
       (if k < 44 then
        (if k == 40 then 59 else if k == 41 then 51 else if k == 42 then 43 else 35)
       else
        (if k == 44 then 27 else if k == 45 then 19 else if k == 46 then 11 else 3)))
     else
      (if k < 56 then
       (if k < 52 then
        (if k == 48 then 61 else if k == 49 then 53 else if k == 50 then 45 else 37)
       else
        (if k == 52 then 29 else if k == 53 then 21 else if k == 54 then 13 else 5))
      else
       (if k < 60 then
        (if k == 56 then 63 else if k == 57 then 55 else if k == 58 then 47 else 39)
       else
        (if k == 60 then 31 else if k == 61 then 23 else if k == 62 then 15 else 7)))))
  }

  /** The final permutation. */
  function Fp(k: nat): (r: nat)
    requires k < 64
    ensures 1 <= r <= 64
  {
    (if k < 32 then
     (if k < 16 then
      (if k < 8 then
       (if k < 4 then
        (if k == 0 then 40 else if k == 1 then 8 else if k == 2 then 48 else 16)
       else
        (if k == 4 then 56 else if k == 5 then 24 else if k == 6 then 64 else 32))
      else
       (if k < 12 then
        (if k == 8 then 39 else if k == 9 then 7 else if k == 10 then 47 else 15)
       else
        (if k == 12 then 55 else if k == 13 then 23 else if k == 14 then 63 else 31)))
     else
      (if k < 24 then
       (if k < 20 then
        (if k == 16 then 38 else if k == 17 then 6 else if k == 18 then 46 else 14)
       else
        (if k == 20 then 54 else if k == 21 then 22 else if k == 22 then 62 else 30))
      else
       (if k < 28 then
        (if k == 24 then 37 else if k == 25 then 5 else if k == 26 then 45 else 13)
       else
        (if k == 28 then 53 else if k == 29 then 21 else if k == 30 then 61 else 29))))
    else
     (if k < 48 then
      (if k < 40 then
       (if k < 36 then
        (if k == 32 then 36 else if k == 33 then 4 else if k == 34 then 44 else 12)
       else
        (if k == 36 then 52 else if k == 37 then 20 else if k == 38 then 60 else 28))
      else
       (if k < 44 then
        (if k == 40 then 35 else if k == 41 then 3 else if k == 42 then 43 else 11)
       else
        (if k == 44 then 51 else if k == 45 then 19 else if k == 46 then 59 else 27)))
     else
      (if k < 56 then
       (if k < 52 then
        (if k == 48 then 34 else if k == 49 then 2 else if k == 50 then 42 else 10)
       else
        (if k == 52 then 50 else if k == 53 then 18 else if k == 54 then 58 else 26))
      else
       (if k < 60 then
        (if k == 56 then 33 else if k == 57 then 1 else if k == 58 then 41 else 9)
       else
        (if k == 60 then 49 else if k == 61 then 17 else if k == 62 then 57 else 25)))))
  }

  /** The expansion. */
  function Ei(k: nat): (r: nat)
    requires k < 48
    ensures 1 <= r <= 32
  {
    (if k < 24 then
     (if k < 12 then
      (if k < 8 then
       (if k < 4 then
        (if k == 0 then 32 else if k == 1 then 1 else if k == 2 then 2 else 3)
       else
        (if k == 4 then 4 else if k == 5 then 5 else if k == 6 then 4 else 5))
      else
       (if k == 8 then 6 else if k == 9 then 7 else if k == 10 then 8 else 9))
     else
      (if k < 20 then
       (if k < 16 then
        (if k == 12 then 8 else if k == 13 then 9 else if k == 14 then 10 else 11)
       else
        (if k == 16 then 12 else if k == 17 then 13 else if k == 18 then 12 else 13))
      else
       (if k == 20 then 14 else if k == 21 then 15 else if k == 22 then 16 else 17)))
    else
     (if k < 36 then
      (if k < 32 then
       (if k < 28 then
        (if k == 24 then 16 else if k == 25 then 17 else if k == 26 then 18 else 19)
       else
        (if k == 28 then 20 else if k == 29 then 21 else if k == 30 then 20 else 21))
      else
       (if k == 32 then 22 else if k == 33 then 23 else if k == 34 then 24 else 25))
     else
      (if k < 44 then
       (if k < 40 then
        (if k == 36 then 24 else if k == 37 then 25 else if k == 38 then 26 else 27)
       else
        (if k == 40 then 28 else if k == 41 then 29 else if k == 42 then 28 else 29))
      else
       (if k == 44 then 30 else if k == 45 then 31 else if k == 46 then 32 else 1))))
  }

  /** The permutation behind the S-boxes. */
  function P32(k: nat): (r: nat)
    requires k < 32
    ensures 1 <= r <= 32
  {
    (if k < 16 then
     (if k < 8 then
      (if k < 4 then
       (if k == 0 then 16 else if k == 1 then 7 else if k == 2 then 20 else 21)
      else
       (if k == 4 then 29 else if k == 5 then 12 else if k == 6 then 28 else 17))
     else
      (if k < 12 then
       (if k == 8 then 1 else if k == 9 then 15 else if k == 10 then 23 else 26)
      else
       (if k == 12 then 5 else if k == 13 then 18 else if k == 14 then 31 else 10)))
    else
     (if k < 24 then
      (if k < 20 then
       (if k == 16 then 2 else if k == 17 then 8 else if k == 18 then 24 else 14)
      else
       (if k == 20 then 32 else if k == 21 then 27 else if k == 22 then 3 else 9))
     else
      (if k < 28 then
       (if k == 24 then 19 else if k == 25 then 13 else if k == 26 then 30 else 6)
      else
       (if k == 28 then 22 else if k == 29 then 11 else if k == 30 then 4 else 25))))
  }

  /** S-box S1, by row and column: sixteen entries a row. */
  function S0(x: bv8): bv8 {
    (if x & 0x20 == 0 then
     (if x & 0x10 == 0 then
      (if x & 0x08 == 0 then
       (if x & 0x04 == 0 then
        (if x & 2 == 0 then (if x & 1 == 0 then 14 else 4) else (if x & 1 == 0 then 13 else 1))
       else
        (if x & 2 == 0 then (if x & 1 == 0 then 2 else 15) else (if x & 1 == 0 then 11 else 8)))
      else
       (if x & 0x04 == 0 then
        (if x & 2 == 0 then (if x & 1 == 0 then 3 else 10) else (if x & 1 == 0 then 6 else 12))
       else
        (if x & 2 == 0 then (if x & 1 == 0 then 5 else 9) else (if x & 1 == 0 then 0 else 7))))
     else
      (if x & 0x08 == 0 then
       (if x & 0x04 == 0 then
        (if x & 2 == 0 then (if x & 1 == 0 then 0 else 15) else (if x & 1 == 0 then 7 else 4))
       else
        (if x & 2 == 0 then (if x & 1 == 0 then 14 else 2) else (if x & 1 == 0 then 13 else 1)))
      else
       (if x & 0x04 == 0 then
        (if x & 2 == 0 then (if x & 1 == 0 then 10 else 6) else (if x & 1 == 0 then 12 else 11))
       else
        (if x & 2 == 0 then (if x & 1 == 0 then 9 else 5) else (if x & 1 == 0 then 3 else 8)))))
    else
     (if x & 0x10 == 0 then
      (if x & 0x08 == 0 then
       (if x & 0x04 == 0 then
        (if x & 2 == 0 then (if x & 1 == 0 then 4 else 1) else (if x & 1 == 0 then 14 else 8))
       else
        (if x & 2 == 0 then (if x & 1 == 0 then 13 else 6) else (if x & 1 == 0 then 2 else 11)))
      else
       (if x & 0x04 == 0 then
        (if x & 2 == 0 then (if x & 1 == 0 then 15 else 12) else (if x & 1 == 0 then 9 else 7))
       else
        (if x & 2 == 0 then (if x & 1 == 0 then 3 else 10) else (if x & 1 == 0 then 5 else 0))))
     else
      (if x & 0x08 == 0 then
       (if x & 0x04 == 0 then
        (if x & 2 == 0 then (if x & 1 == 0 then 15 else 12) else (if x & 1 == 0 then 8 else 2))
       else
        (if x & 2 == 0 then (if x & 1 == 0 then 4 else 9) else (if x & 1 == 0 then 1 else 7)))
      else
       (if x & 0x04 == 0 then
        (if x & 2 == 0 then (if x & 1 == 0 then 5 else 11) else (if x & 1 == 0 then 3 else 14))
       else
        (if x & 2 == 0 then (if x & 1 == 0 then 10 else 0) else (if x & 1 == 0 then 6 else 13))))))
  }

  /** S-box S2, by row and column: sixteen entries a row. */
  function S1(x: bv8): bv8 {
    (if x & 0x20 == 0 then
     (if x & 0x10 == 0 then
      (if x & 0x08 == 0 then
       (if x & 0x04 == 0 then
        (if x & 2 == 0 then (if x & 1 == 0 then 15 else 1) else (if x & 1 == 0 then 8 else 14))
       else
        (if x & 2 == 0 then (if x & 1 == 0 then 6 else 11) else (if x & 1 == 0 then 3 else 4)))
      else
       (if x & 0x04 == 0 then
        (if x & 2 == 0 then (if x & 1 == 0 then 9 else 7) else (if x & 1 == 0 then 2 else 13))
       else
        (if x & 2 == 0 then (if x & 1 == 0 then 12 else 0) else (if x & 1 == 0 then 5 else 10))))
     else
      (if x & 0x08 == 0 then
       (if x & 0x04 == 0 then
        (if x & 2 == 0 then (if x & 1 == 0 then 3 else 13) else (if x & 1 == 0 then 4 else 7))
       else
        (if x & 2 == 0 then (if x & 1 == 0 then 15 else 2) else (if x & 1 == 0 then 8 else 14)))
      else
       (if x & 0x04 == 0 then
        (if x & 2 == 0 then (if x & 1 == 0 then 12 else 0) else (if x & 1 == 0 then 1 else 10))
       else
        (if x & 2 == 0 then (if x & 1 == 0 then 6 else 9) else (if x & 1 == 0 then 11 else 5)))))
    else
     (if x & 0x10 == 0 then
      (if x & 0x08 == 0 then
       (if x & 0x04 == 0 then
        (if x & 2 == 0 then (if x & 1 == 0 then 0 else 14) else (if x & 1 == 0 then 7 else 11))
       else
        (if x & 2 == 0 then (if x & 1 == 0 then 10 else 4) else (if x & 1 == 0 then 13 else 1)))
      else
       (if x & 0x04 == 0 then
        (if x & 2 == 0 then (if x & 1 == 0 then 5 else 8) else (if x & 1 == 0 then 12 else 6))
       else
        (if x & 2 == 0 then (if x & 1 == 0 then 9 else 3) else (if x & 1 == 0 then 2 else 15))))
     else
      (if x & 0x08 == 0 then
       (if x & 0x04 == 0 then
        (if x & 2 == 0 then (if x & 1 == 0 then 13 else 8) else (if x & 1 == 0 then 10 else 1))
       else
        (if x & 2 == 0 then (if x & 1 == 0 then 3 else 15) else (if x & 1 == 0 then 4 else 2)))
      else
       (if x & 0x04 == 0 then
        (if x & 2 == 0 then (if x & 1 == 0 then 11 else 6) else (if x & 1 == 0 then 7 else 12))
       else
        (if x & 2 == 0 then (if x & 1 == 0 then 0 else 5) else (if x & 1 == 0 then 14 else 9))))))
  }

  /** S-box S3, by row and column: sixteen entries a row. */
  function S2(x: bv8): bv8 {
    (if x & 0x20 == 0 then
     (if x & 0x10 == 0 then
      (if x & 0x08 == 0 then
       (if x & 0x04 == 0 then
        (if x & 2 == 0 then (if x & 1 == 0 then 10 else 0) else (if x & 1 == 0 then 9 else 14))
       else
        (if x & 2 == 0 then (if x & 1 == 0 then 6 else 3) else (if x & 1 == 0 then 15 else 5)))
      else
       (if x & 0x04 == 0 then
        (if x & 2 == 0 then (if x & 1 == 0 then 1 else 13) else (if x & 1 == 0 then 12 else 7))
       else
        (if x & 2 == 0 then (if x & 1 == 0 then 11 else 4) else (if x & 1 == 0 then 2 else 8))))
     else
      (if x & 0x08 == 0 then
       (if x & 0x04 == 0 then
        (if x & 2 == 0 then (if x & 1 == 0 then 13 else 7) else (if x & 1 == 0 then 0 else 9))
       else
        (if x & 2 == 0 then (if x & 1 == 0 then 3 else 4) else (if x & 1 == 0 then 6 else 10)))
      else
       (if x & 0x04 == 0 then
        (if x & 2 == 0 then (if x & 1 == 0 then 2 else 8) else (if x & 1 == 0 then 5 else 14))
       else
        (if x & 2 == 0 then (if x & 1 == 0 then 12 else 11) else (if x & 1 == 0 then 15 else 1)))))
    else
     (if x & 0x10 == 0 then
      (if x & 0x08 == 0 then
       (if x & 0x04 == 0 then
        (if x & 2 == 0 then (if x & 1 == 0 then 13 else 6) else (if x & 1 == 0 then 4 else 9))
       else
        (if x & 2 == 0 then (if x & 1 == 0 then 8 else 15) else (if x & 1 == 0 then 3 else 0)))
      else
       (if x & 0x04 == 0 then
        (if x & 2 == 0 then (if x & 1 == 0 then 11 else 1) else (if x & 1 == 0 then 2 else 12))
       else
        (if x & 2 == 0 then (if x & 1 == 0 then 5 else 10) else (if x & 1 == 0 then 14 else 7))))
     else
      (if x & 0x08 == 0 then
       (if x & 0x04 == 0 then
        (if x & 2 == 0 then (if x & 1 == 0 then 1 else 10) else (if x & 1 == 0 then 13 else 0))
       else
        (if x & 2 == 0 then (if x & 1 == 0 then 6 else 9) else (if x & 1 == 0 then 8 else 7)))
      else
       (if x & 0x04 == 0 then
        (if x & 2 == 0 then (if x & 1 == 0 then 4 else 15) else (if x & 1 == 0 then 14 else 3))
       else
        (if x & 2 == 0 then (if x & 1 == 0 then 11 else 5) else (if x & 1 == 0 then 2 else 12))))))
  }

  /** S-box S4, by row and column: sixteen entries a row. */
  function S3(x: bv8): bv8 {
    (if x & 0x20 == 0 then
     (if x & 0x10 == 0 then
      (if x & 0x08 == 0 then
       (if x & 0x04 == 0 then
        (if x & 2 == 0 then (if x & 1 == 0 then 7 else 13) else (if x & 1 == 0 then 14 else 3))
       else
        (if x & 2 == 0 then (if x & 1 == 0 then 0 else 6) else (if x & 1 == 0 then 9 else 10)))
      else
       (if x & 0x04 == 0 then
        (if x & 2 == 0 then (if x & 1 == 0 then 1 else 2) else (if x & 1 == 0 then 8 else 5))
       else
        (if x & 2 == 0 then (if x & 1 == 0 then 11 else 12) else (if x & 1 == 0 then 4 else 15))))
     else
      (if x & 0x08 == 0 then
       (if x & 0x04 == 0 then
        (if x & 2 == 0 then (if x & 1 == 0 then 13 else 8) else (if x & 1 == 0 then 11 else 5))
       else
        (if x & 2 == 0 then (if x & 1 == 0 then 6 else 15) else (if x & 1 == 0 then 0 else 3)))
      else
       (if x & 0x04 == 0 then
        (if x & 2 == 0 then (if x & 1 == 0 then 4 else 7) else (if x & 1 == 0 then 2 else 12))
       else
        (if x & 2 == 0 then (if x & 1 == 0 then 1 else 10) else (if x & 1 == 0 then 14 else 9)))))
    else
     (if x & 0x10 == 0 then
      (if x & 0x08 == 0 then
       (if x & 0x04 == 0 then
        (if x & 2 == 0 then (if x & 1 == 0 then 10 else 6) else (if x & 1 == 0 then 9 else 0))
       else
        (if x & 2 == 0 then (if x & 1 == 0 then 12 else 11) else (if x & 1 == 0 then 7 else 13)))
      else
       (if x & 0x04 == 0 then
        (if x & 2 == 0 then (if x & 1 == 0 then 15 else 1) else (if x & 1 == 0 then 3 else 14))
       else
        (if x & 2 == 0 then (if x & 1 == 0 then 5 else 2) else (if x & 1 == 0 then 8 else 4))))
     else
      (if x & 0x08 == 0 then
       (if x & 0x04 == 0 then
        (if x & 2 == 0 then (if x & 1 == 0 then 3 else 15) else (if x & 1 == 0 then 0 else 6))
       else
        (if x & 2 == 0 then (if x & 1 == 0 then 10 else 1) else (if x & 1 == 0 then 13 else 8)))
      else
       (if x & 0x04 == 0 then
        (if x & 2 == 0 then (if x & 1 == 0 then 9 else 4) else (if x & 1 == 0 then 5 else 11))
       else
        (if x & 2 == 0 then (if x & 1 == 0 then 12 else 7) else (if x & 1 == 0 then 2 else 14))))))
  }

  /** S-box S5, by row and column: sixteen entries a row. */
  function S4(x: bv8): bv8 {
    (if x & 0x20 == 0 then
     (if x & 0x10 == 0 then
      (if x & 0x08 == 0 then
       (if x & 0x04 == 0 then
        (if x & 2 == 0 then (if x & 1 == 0 then 2 else 12) else (if x & 1 == 0 then 4 else 1))
       else
        (if x & 2 == 0 then (if x & 1 == 0 then 7 else 10) else (if x & 1 == 0 then 11 else 6)))
      else
       (if x & 0x04 == 0 then
        (if x & 2 == 0 then (if x & 1 == 0 then 8 else 5) else (if x & 1 == 0 then 3 else 15))
       else
        (if x & 2 == 0 then (if x & 1 == 0 then 13 else 0) else (if x & 1 == 0 then 14 else 9))))
     else
      (if x & 0x08 == 0 then
       (if x & 0x04 == 0 then
        (if x & 2 == 0 then (if x & 1 == 0 then 14 else 11) else (if x & 1 == 0 then 2 else 12))
       else
        (if x & 2 == 0 then (if x & 1 == 0 then 4 else 7) else (if x & 1 == 0 then 13 else 1)))
      else
       (if x & 0x04 == 0 then
        (if x & 2 == 0 then (if x & 1 == 0 then 5 else 0) else (if x & 1 == 0 then 15 else 10))
       else
        (if x & 2 == 0 then (if x & 1 == 0 then 3 else 9) else (if x & 1 == 0 then 8 else 6)))))
    else
     (if x & 0x10 == 0 then
      (if x & 0x08 == 0 then
       (if x & 0x04 == 0 then
        (if x & 2 == 0 then (if x & 1 == 0 then 4 else 2) else (if x & 1 == 0 then 1 else 11))
       else
        (if x & 2 == 0 then (if x & 1 == 0 then 10 else 13) else (if x & 1 == 0 then 7 else 8)))
      else
       (if x & 0x04 == 0 then
        (if x & 2 == 0 then (if x & 1 == 0 then 15 else 9) else (if x & 1 == 0 then 12 else 5))
       else
        (if x & 2 == 0 then (if x & 1 == 0 then 6 else 3) else (if x & 1 == 0 then 0 else 14))))
     else
      (if x & 0x08 == 0 then
       (if x & 0x04 == 0 then
        (if x & 2 == 0 then (if x & 1 == 0 then 11 else 8) else (if x & 1 == 0 then 12 else 7))
       else
        (if x & 2 == 0 then (if x & 1 == 0 then 1 else 14) else (if x & 1 == 0 then 2 else 13)))
      else
       (if x & 0x04 == 0 then
        (if x & 2 == 0 then (if x & 1 == 0 then 6 else 15) else (if x & 1 == 0 then 0 else 9))
       else
        (if x & 2 == 0 then (if x & 1 == 0 then 10 else 4) else (if x & 1 == 0 then 5 else 3))))))
  }

  /** S-box S6, by row and column: sixteen entries a row. */
  function S5(x: bv8): bv8 {
    (if x & 0x20 == 0 then
     (if x & 0x10 == 0 then
      (if x & 0x08 == 0 then
       (if x & 0x04 == 0 then
        (if x & 2 == 0 then (if x & 1 == 0 then 12 else 1) else (if x & 1 == 0 then 10 else 15))
       else
        (if x & 2 == 0 then (if x & 1 == 0 then 9 else 2) else (if x & 1 == 0 then 6 else 8)))
      else
       (if x & 0x04 == 0 then
        (if x & 2 == 0 then (if x & 1 == 0 then 0 else 13) else (if x & 1 == 0 then 3 else 4))
       else
        (if x & 2 == 0 then (if x & 1 == 0 then 14 else 7) else (if x & 1 == 0 then 5 else 11))))
     else
      (if x & 0x08 == 0 then
       (if x & 0x04 == 0 then
        (if x & 2 == 0 then (if x & 1 == 0 then 10 else 15) else (if x & 1 == 0 then 4 else 2))
       else
        (if x & 2 == 0 then (if x & 1 == 0 then 7 else 12) else (if x & 1 == 0 then 9 else 5)))
      else
       (if x & 0x04 == 0 then
        (if x & 2 == 0 then (if x & 1 == 0 then 6 else 1) else (if x & 1 == 0 then 13 else 14))
       else
        (if x & 2 == 0 then (if x & 1 == 0 then 0 else 11) else (if x & 1 == 0 then 3 else 8)))))
    else
     (if x & 0x10 == 0 then
      (if x & 0x08 == 0 then
       (if x & 0x04 == 0 then
        (if x & 2 == 0 then (if x & 1 == 0 then 9 else 14) else (if x & 1 == 0 then 15 else 5))
       else
        (if x & 2 == 0 then (if x & 1 == 0 then 2 else 8) else (if x & 1 == 0 then 12 else 3)))
      else
       (if x & 0x04 == 0 then
        (if x & 2 == 0 then (if x & 1 == 0 then 7 else 0) else (if x & 1 == 0 then 4 else 10))
       else
        (if x & 2 == 0 then (if x & 1 == 0 then 1 else 13) else (if x & 1 == 0 then 11 else 6))))
     else
      (if x & 0x08 == 0 then
       (if x & 0x04 == 0 then
        (if x & 2 == 0 then (if x & 1 == 0 then 4 else 3) else (if x & 1 == 0 then 2 else 12))
       else
        (if x & 2 == 0 then (if x & 1 == 0 then 9 else 5) else (if x & 1 == 0 then 15 else 10)))
      else
       (if x & 0x04 == 0 then
        (if x & 2 == 0 then (if x & 1 == 0 then 11 else 14) else (if x & 1 == 0 then 1 else 7))
       else
        (if x & 2 == 0 then (if x & 1 == 0 then 6 else 0) else (if x & 1 == 0 then 8 else 13))))))
  }

  /** S-box S7, by row and column: sixteen entries a row. */
  function S6(x: bv8): bv8 {
    (if x & 0x20 == 0 then
     (if x & 0x10 == 0 then
      (if x & 0x08 == 0 then
       (if x & 0x04 == 0 then
        (if x & 2 == 0 then (if x & 1 == 0 then 4 else 11) else (if x & 1 == 0 then 2 else 14))
       else
        (if x & 2 == 0 then (if x & 1 == 0 then 15 else 0) else (if x & 1 == 0 then 8 else 13)))
      else
       (if x & 0x04 == 0 then
        (if x & 2 == 0 then (if x & 1 == 0 then 3 else 12) else (if x & 1 == 0 then 9 else 7))
       else
        (if x & 2 == 0 then (if x & 1 == 0 then 5 else 10) else (if x & 1 == 0 then 6 else 1))))
     else
      (if x & 0x08 == 0 then
       (if x & 0x04 == 0 then
        (if x & 2 == 0 then (if x & 1 == 0 then 13 else 0) else (if x & 1 == 0 then 11 else 7))
       else
        (if x & 2 == 0 then (if x & 1 == 0 then 4 else 9) else (if x & 1 == 0 then 1 else 10)))
      else
       (if x & 0x04 == 0 then
        (if x & 2 == 0 then (if x & 1 == 0 then 14 else 3) else (if x & 1 == 0 then 5 else 12))
       else
        (if x & 2 == 0 then (if x & 1 == 0 then 2 else 15) else (if x & 1 == 0 then 8 else 6)))))
    else
     (if x & 0x10 == 0 then
      (if x & 0x08 == 0 then
       (if x & 0x04 == 0 then
        (if x & 2 == 0 then (if x & 1 == 0 then 1 else 4) else (if x & 1 == 0 then 11 else 13))
       else
        (if x & 2 == 0 then (if x & 1 == 0 then 12 else 3) else (if x & 1 == 0 then 7 else 14)))
      else
       (if x & 0x04 == 0 then
        (if x & 2 == 0 then (if x & 1 == 0 then 10 else 15) else (if x & 1 == 0 then 6 else 8))
       else
        (if x & 2 == 0 then (if x & 1 == 0 then 0 else 5) else (if x & 1 == 0 then 9 else 2))))
     else
      (if x & 0x08 == 0 then
       (if x & 0x04 == 0 then
        (if x & 2 == 0 then (if x & 1 == 0 then 6 else 11) else (if x & 1 == 0 then 13 else 8))
       else
        (if x & 2 == 0 then (if x & 1 == 0 then 1 else 4) else (if x & 1 == 0 then 10 else 7)))
      else
       (if x & 0x04 == 0 then
        (if x & 2 == 0 then (if x & 1 == 0 then 9 else 5) else (if x & 1 == 0 then 0 else 15))
       else
        (if x & 2 == 0 then (if x & 1 == 0 then 14 else 2) else (if x & 1 == 0 then 3 else 12))))))
  }

  /** S-box S8, by row and column: sixteen entries a row. */
  function S7(x: bv8): bv8 {
    (if x & 0x20 == 0 then
     (if x & 0x10 == 0 then
      (if x & 0x08 == 0 then
       (if x & 0x04 == 0 then
        (if x & 2 == 0 then (if x & 1 == 0 then 13 else 2) else (if x & 1 == 0 then 8 else 4))
       else
        (if x & 2 == 0 then (if x & 1 == 0 then 6 else 15) else (if x & 1 == 0 then 11 else 1)))
      else
       (if x & 0x04 == 0 then
        (if x & 2 == 0 then (if x & 1 == 0 then 10 else 9) else (if x & 1 == 0 then 3 else 14))
       else
        (if x & 2 == 0 then (if x & 1 == 0 then 5 else 0) else (if x & 1 == 0 then 12 else 7))))
     else
      (if x & 0x08 == 0 then
       (if x & 0x04 == 0 then
        (if x & 2 == 0 then (if x & 1 == 0 then 1 else 15) else (if x & 1 == 0 then 13 else 8))
       else
        (if x & 2 == 0 then (if x & 1 == 0 then 10 else 3) else (if x & 1 == 0 then 7 else 4)))
      else
       (if x & 0x04 == 0 then
        (if x & 2 == 0 then (if x & 1 == 0 then 12 else 5) else (if x & 1 == 0 then 6 else 11))
       else
        (if x & 2 == 0 then (if x & 1 == 0 then 0 else 14) else (if x & 1 == 0 then 9 else 2)))))
    else
     (if x & 0x10 == 0 then
      (if x & 0x08 == 0 then
       (if x & 0x04 == 0 then
        (if x & 2 == 0 then (if x & 1 == 0 then 7 else 11) else (if x & 1 == 0 then 4 else 1))
       else
        (if x & 2 == 0 then (if x & 1 == 0 then 9 else 12) else (if x & 1 == 0 then 14 else 2)))
      else
       (if x & 0x04 == 0 then
        (if x & 2 == 0 then (if x & 1 == 0 then 0 else 6) else (if x & 1 == 0 then 10 else 13))
       else
        (if x & 2 == 0 then (if x & 1 == 0 then 15 else 3) else (if x & 1 == 0 then 5 else 8))))
     else
      (if x & 0x08 == 0 then
       (if x & 0x04 == 0 then
        (if x & 2 == 0 then (if x & 1 == 0 then 2 else 1) else (if x & 1 == 0 then 14 else 7))
       else
        (if x & 2 == 0 then (if x & 1 == 0 then 4 else 10) else (if x & 1 == 0 then 8 else 13)))
      else
       (if x & 0x04 == 0 then
        (if x & 2 == 0 then (if x & 1 == 0 then 15 else 12) else (if x & 1 == 0 then 9 else 0))
       else
        (if x & 2 == 0 then (if x & 1 == 0 then 3 else 5) else (if x & 1 == 0 then 6 else 11))))))
  }

  /** The first half of PC-1: the key bits of C0. */
  function PcC(k: nat): (r: nat)
    requires k < 28
    ensures 1 <= r <= 64
  {
    (if k < 16 then
     (if k < 8 then
      (if k < 4 then
       (if k == 0 then 57 else if k == 1 then 49 else if k == 2 then 41 else 33)
      else
       (if k == 4 then 25 else if k == 5 then 17 else if k == 6 then 9 else 1))
     else
      (if k < 12 then
       (if k == 8 then 58 else if k == 9 then 50 else if k == 10 then 42 else 34)
      else
       (if k == 12 then 26 else if k == 13 then 18 else if k == 14 then 10 else 2)))
    else
     (if k < 24 then
      (if k < 20 then
       (if k == 16 then 59 else if k == 17 then 51 else if k == 18 then 43 else 35)
      else
       (if k == 20 then 27 else if k == 21 then 19 else if k == 22 then 11 else 3))
     else
      (if k == 24 then 60 else if k == 25 then 52 else if k == 26 then 44 else 36)))
  }

  /** The second half: those of D0. */
  function PcD(k: nat): (r: nat)
    requires k < 28
    ensures 1 <= r <= 64
  {
    (if k < 16 then
     (if k < 8 then
      (if k < 4 then
       (if k == 0 then 63 else if k == 1 then 55 else if k == 2 then 47 else 39)
      else
       (if k == 4 then 31 else if k == 5 then 23 else if k == 6 then 15 else 7))
     else
      (if k < 12 then
       (if k == 8 then 62 else if k == 9 then 54 else if k == 10 then 46 else 38)
      else
       (if k == 12 then 30 else if k == 13 then 22 else if k == 14 then 14 else 6)))
    else
     (if k < 24 then
      (if k < 20 then
       (if k == 16 then 61 else if k == 17 then 53 else if k == 18 then 45 else 37)
      else
       (if k == 20 then 29 else if k == 21 then 21 else if k == 22 then 13 else 5))
     else
      (if k == 24 then 28 else if k == 25 then 20 else if k == 26 then 12 else 4)))
  }

  /** PC-2: the bits of C and D that make a round key. */
  function PcK(k: nat): (r: nat)
    requires k < 48
    ensures 1 <= r <= 56
  {
    (if k < 24 then
     (if k < 12 then
      (if k < 8 then
       (if k < 4 then
        (if k == 0 then 14 else if k == 1 then 17 else if k == 2 then 11 else 24)
       else
        (if k == 4 then 1 else if k == 5 then 5 else if k == 6 then 3 else 28))
      else
       (if k == 8 then 15 else if k == 9 then 6 else if k == 10 then 21 else 10))
     else
      (if k < 20 then
       (if k < 16 then
        (if k == 12 then 23 else if k == 13 then 19 else if k == 14 then 12 else 4)
       else
        (if k == 16 then 26 else if k == 17 then 8 else if k == 18 then 16 else 7))
      else
       (if k == 20 then 27 else if k == 21 then 20 else if k == 22 then 13 else 2)))
    else
     (if k < 36 then
      (if k < 32 then
       (if k < 28 then
        (if k == 24 then 41 else if k == 25 then 52 else if k == 26 then 31 else 37)
       else
        (if k == 28 then 47 else if k == 29 then 55 else if k == 30 then 30 else 40))
      else
       (if k == 32 then 51 else if k == 33 then 45 else if k == 34 then 33 else 48))
     else
      (if k < 44 then
       (if k < 40 then
        (if k == 36 then 44 else if k == 37 then 49 else if k == 38 then 39 else 56)
       else
        (if k == 40 then 34 else if k == 41 then 53 else if k == 42 then 46 else 42))
      else
       (if k == 44 then 50 else if k == 45 then 36 else if k == 46 then 29 else 32))))
  }

  /** The left shifts of iteration n. */
  function LeftShifts(n: nat): nat { if n == 1 || n == 2 || n == 9 || n == 16 then 1 else 2 }
}
