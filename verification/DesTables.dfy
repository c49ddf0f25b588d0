/**
  The tables of des.c as decisions on the index: the combined S-box and P permutation Spbox, and
  the choices and rotations of the key schedule.
 */
module DesTables {

  /** Spbox[0], of which only the low six bits of x matter. */
  function Sp0(x: bv32): bv32 {
    (if x & 0x20 == 0 then
     (if x & 0x10 == 0 then
      (if x & 0x08 == 0 then
       (if x & 0x04 == 0 then
        (if x & 2 == 0 then (if x & 1 == 0 then 0x01010400 else 0x00000000)
         else (if x & 1 == 0 then 0x00010000 else 0x01010404))
       else
        (if x & 2 == 0 then (if x & 1 == 0 then 0x01010004 else 0x00010404)
         else (if x & 1 == 0 then 0x00000004 else 0x00010000)))
      else
       (if x & 0x04 == 0 then
        (if x & 2 == 0 then (if x & 1 == 0 then 0x00000400 else 0x01010400)
         else (if x & 1 == 0 then 0x01010404 else 0x00000400))
       else
        (if x & 2 == 0 then (if x & 1 == 0 then 0x01000404 else 0x01010004)
         else (if x & 1 == 0 then 0x01000000 else 0x00000004))))
     else
      (if x & 0x08 == 0 then
       (if x & 0x04 == 0 then
        (if x & 2 == 0 then (if x & 1 == 0 then 0x00000404 else 0x01000400)
         else (if x & 1 == 0 then 0x01000400 else 0x00010400))
       else
        (if x & 2 == 0 then (if x & 1 == 0 then 0x00010400 else 0x01010000)
         else (if x & 1 == 0 then 0x01010000 else 0x01000404)))
      else
       (if x & 0x04 == 0 then
        (if x & 2 == 0 then (if x & 1 == 0 then 0x00010004 else 0x01000004)
         else (if x & 1 == 0 then 0x01000004 else 0x00010004))
       else
        (if x & 2 == 0 then (if x & 1 == 0 then 0x00000000 else 0x00000404)
         else (if x & 1 == 0 then 0x00010404 else 0x01000000)))))
    else
     (if x & 0x10 == 0 then
      (if x & 0x08 == 0 then
       (if x & 0x04 == 0 then
        (if x & 2 == 0 then (if x & 1 == 0 then 0x00010000 else 0x01010404)
         else (if x & 1 == 0 then 0x00000004 else 0x01010000))
       else
        (if x & 2 == 0 then (if x & 1 == 0 then 0x01010400 else 0x01000000)
         else (if x & 1 == 0 then 0x01000000 else 0x00000400)))
      else
       (if x & 0x04 == 0 then
        (if x & 2 == 0 then (if x & 1 == 0 then 0x01010004 else 0x00010000)
         else (if x & 1 == 0 then 0x00010400 else 0x01000004))
       else
        (if x & 2 == 0 then (if x & 1 == 0 then 0x00000400 else 0x00000004)
         else (if x & 1 == 0 then 0x01000404 else 0x00010404))))
     else
      (if x & 0x08 == 0 then
       (if x & 0x04 == 0 then
        (if x & 2 == 0 then (if x & 1 == 0 then 0x01010404 else 0x00010004)
         else (if x & 1 == 0 then 0x01010000 else 0x01000404))
       else
        (if x & 2 == 0 then (if x & 1 == 0 then 0x01000004 else 0x00000404)
         else (if x & 1 == 0 then 0x00010404 else 0x01010400)))
      else
       (if x & 0x04 == 0 then
        (if x & 2 == 0 then (if x & 1 == 0 then 0x00000404 else 0x01000400)
         else (if x & 1 == 0 then 0x01000400 else 0x00000000))
       else
        (if x & 2 == 0 then (if x & 1 == 0 then 0x00010004 else 0x00010400)
         else (if x & 1 == 0 then 0x00000000 else 0x01010004))))))
  }

  /** Spbox[1], of which only the low six bits of x matter. */
  function Sp1(x: bv32): bv32 {
    (if x & 0x20 == 0 then
     (if x & 0x10 == 0 then
      (if x & 0x08 == 0 then
       (if x & 0x04 == 0 then
        (if x & 2 == 0 then (if x & 1 == 0 then 0x80108020 else 0x80008000)
         else (if x & 1 == 0 then 0x00008000 else 0x00108020))
       else
        (if x & 2 == 0 then (if x & 1 == 0 then 0x00100000 else 0x00000020)
         else (if x & 1 == 0 then 0x80100020 else 0x80008020)))
      else
       (if x & 0x04 == 0 then
        (if x & 2 == 0 then (if x & 1 == 0 then 0x80000020 else 0x80108020)
         else (if x & 1 == 0 then 0x80108000 else 0x80000000))
       else
        (if x & 2 == 0 then (if x & 1 == 0 then 0x80008000 else 0x00100000)
         else (if x & 1 == 0 then 0x00000020 else 0x80100020))))
     else
      (if x & 0x08 == 0 then
       (if x & 0x04 == 0 then
        (if x & 2 == 0 then (if x & 1 == 0 then 0x00108000 else 0x00100020)
         else (if x & 1 == 0 then 0x80008020 else 0x00000000))
       else
        (if x & 2 == 0 then (if x & 1 == 0 then 0x80000000 else 0x00008000)
         else (if x & 1 == 0 then 0x00108020 else 0x80100000)))
      else
       (if x & 0x04 == 0 then
        (if x & 2 == 0 then (if x & 1 == 0 then 0x00100020 else 0x80000020)
         else (if x & 1 == 0 then 0x00000000 else 0x00108000))
       else
        (if x & 2 == 0 then (if x & 1 == 0 then 0x00008020 else 0x80108000)
         else (if x & 1 == 0 then 0x80100000 else 0x00008020)))))
    else
     (if x & 0x10 == 0 then
      (if x & 0x08 == 0 then
       (if x & 0x04 == 0 then
        (if x & 2 == 0 then (if x & 1 == 0 then 0x00000000 else 0x00108020)
         else (if x & 1 == 0 then 0x80100020 else 0x00100000))
       else
        (if x & 2 == 0 then (if x & 1 == 0 then 0x80008020 else 0x80100000)
         else (if x & 1 == 0 then 0x80108000 else 0x00008000)))
      else
       (if x & 0x04 == 0 then
        (if x & 2 == 0 then (if x & 1 == 0 then 0x80100000 else 0x80008000)
         else (if x & 1 == 0 then 0x00000020 else 0x80108020))
       else
        (if x & 2 == 0 then (if x & 1 == 0 then 0x00108020 else 0x00000020)
         else (if x & 1 == 0 then 0x00008000 else 0x80000000))))
     else
      (if x & 0x08 == 0 then
       (if x & 0x04 == 0 then
        (if x & 2 == 0 then (if x & 1 == 0 then 0x00008020 else 0x80108000)
         else (if x & 1 == 0 then 0x00100000 else 0x80000020))
       else
        (if x & 2 == 0 then (if x & 1 == 0 then 0x00100020 else 0x80008020)
         else (if x & 1 == 0 then 0x80000020 else 0x00100020)))
      else
       (if x & 0x04 == 0 then
        (if x & 2 == 0 then (if x & 1 == 0 then 0x00108000 else 0x00000000)
         else (if x & 1 == 0 then 0x80008000 else 0x00008020))
       else
        (if x & 2 == 0 then (if x & 1 == 0 then 0x80000000 else 0x80100020)
         else (if x & 1 == 0 then 0x80108020 else 0x00108000))))))
  }

  /** Spbox[2], of which only the low six bits of x matter. */
  function Sp2(x: bv32): bv32 {
    (if x & 0x20 == 0 then
     (if x & 0x10 == 0 then
      (if x & 0x08 == 0 then
       (if x & 0x04 == 0 then
        (if x & 2 == 0 then (if x & 1 == 0 then 0x00000208 else 0x08020200)
         else (if x & 1 == 0 then 0x00000000 else 0x08020008))
       else
        (if x & 2 == 0 then (if x & 1 == 0 then 0x08000200 else 0x00000000)
         else (if x & 1 == 0 then 0x00020208 else 0x08000200)))
      else
       (if x & 0x04 == 0 then
        (if x & 2 == 0 then (if x & 1 == 0 then 0x00020008 else 0x08000008)
         else (if x & 1 == 0 then 0x08000008 else 0x00020000))
       else
        (if x & 2 == 0 then (if x & 1 == 0 then 0x08020208 else 0x00020008)
         else (if x & 1 == 0 then 0x08020000 else 0x00000208))))
     else
      (if x & 0x08 == 0 then
       (if x & 0x04 == 0 then
        (if x & 2 == 0 then (if x & 1 == 0 then 0x08000000 else 0x00000008)
         else (if x & 1 == 0 then 0x08020200 else 0x00000200))
       else
        (if x & 2 == 0 then (if x & 1 == 0 then 0x00020200 else 0x08020000)
         else (if x & 1 == 0 then 0x08020008 else 0x00020208)))
      else
       (if x & 0x04 == 0 then
        (if x & 2 == 0 then (if x & 1 == 0 then 0x08000208 else 0x00020200)
         else (if x & 1 == 0 then 0x00020000 else 0x08000208))
       else
        (if x & 2 == 0 then (if x & 1 == 0 then 0x00000008 else 0x08020208)
         else (if x & 1 == 0 then 0x00000200 else 0x08000000)))))
    else
     (if x & 0x10 == 0 then
      (if x & 0x08 == 0 then
       (if x & 0x04 == 0 then
        (if x & 2 == 0 then (if x & 1 == 0 then 0x08020200 else 0x08000000)
         else (if x & 1 == 0 then 0x00020008 else 0x00000208))
       else
        (if x & 2 == 0 then (if x & 1 == 0 then 0x00020000 else 0x08020200)
         else (if x & 1 == 0 then 0x08000200 else 0x00000000)))
      else
       (if x & 0x04 == 0 then
        (if x & 2 == 0 then (if x & 1 == 0 then 0x00000200 else 0x00020008)
         else (if x & 1 == 0 then 0x08020208 else 0x08000200))
       else
        (if x & 2 == 0 then (if x & 1 == 0 then 0x08000008 else 0x00000200)
         else (if x & 1 == 0 then 0x00000000 else 0x08020008))))
     else
      (if x & 0x08 == 0 then
       (if x & 0x04 == 0 then
        (if x & 2 == 0 then (if x & 1 == 0 then 0x08000208 else 0x00020000)
         else (if x & 1 == 0 then 0x08000000 else 0x08020208))
       else
        (if x & 2 == 0 then (if x & 1 == 0 then 0x00000008 else 0x00020208)
         else (if x & 1 == 0 then 0x00020200 else 0x08000008)))
      else
       (if x & 0x04 == 0 then
        (if x & 2 == 0 then (if x & 1 == 0 then 0x08020000 else 0x08000208)
         else (if x & 1 == 0 then 0x00000208 else 0x08020000))
       else
        (if x & 2 == 0 then (if x & 1 == 0 then 0x00020208 else 0x00000008)
         else (if x & 1 == 0 then 0x08020008 else 0x00020200))))))
  }

  /** Spbox[3], of which only the low six bits of x matter. */
  function Sp3(x: bv32): bv32 {
    (if x & 0x20 == 0 then
     (if x & 0x10 == 0 then
      (if x & 0x08 == 0 then
       (if x & 0x04 == 0 then
        (if x & 2 == 0 then (if x & 1 == 0 then 0x00802001 else 0x00002081)
         else (if x & 1 == 0 then 0x00002081 else 0x00000080))
       else
        (if x & 2 == 0 then (if x & 1 == 0 then 0x00802080 else 0x00800081)
         else (if x & 1 == 0 then 0x00800001 else 0x00002001)))
      else
       (if x & 0x04 == 0 then
        (if x & 2 == 0 then (if x & 1 == 0 then 0x00000000 else 0x00802000)
         else (if x & 1 == 0 then 0x00802000 else 0x00802081))
       else
        (if x & 2 == 0 then (if x & 1 == 0 then 0x00000081 else 0x00000000)
         else (if x & 1 == 0 then 0x00800080 else 0x00800001))))
     else
      (if x & 0x08 == 0 then
       (if x & 0x04 == 0 then
        (if x & 2 == 0 then (if x & 1 == 0 then 0x00000001 else 0x00002000)
         else (if x & 1 == 0 then 0x00800000 else 0x00802001))
       else
        (if x & 2 == 0 then (if x & 1 == 0 then 0x00000080 else 0x00800000)
         else (if x & 1 == 0 then 0x00002001 else 0x00002080)))
      else
       (if x & 0x04 == 0 then
        (if x & 2 == 0 then (if x & 1 == 0 then 0x00800081 else 0x00000001)
         else (if x & 1 == 0 then 0x00002080 else 0x00800080))
       else
        (if x & 2 == 0 then (if x & 1 == 0 then 0x00002000 else 0x00802080)
         else (if x & 1 == 0 then 0x00802081 else 0x00000081)))))
    else
     (if x & 0x10 == 0 then
      (if x & 0x08 == 0 then
       (if x & 0x04 == 0 then
        (if x & 2 == 0 then (if x & 1 == 0 then 0x00800080 else 0x00800001)
         else (if x & 1 == 0 then 0x00802000 else 0x00802081))
       else
        (if x & 2 == 0 then (if x & 1 == 0 then 0x00000081 else 0x00000000)
         else (if x & 1 == 0 then 0x00000000 else 0x00802000)))
      else
       (if x & 0x04 == 0 then
        (if x & 2 == 0 then (if x & 1 == 0 then 0x00002080 else 0x00800080)
         else (if x & 1 == 0 then 0x00800081 else 0x00000001))
       else
        (if x & 2 == 0 then (if x & 1 == 0 then 0x00802001 else 0x00002081)
         else (if x & 1 == 0 then 0x00002081 else 0x00000080))))
     else
      (if x & 0x08 == 0 then
       (if x & 0x04 == 0 then
        (if x & 2 == 0 then (if x & 1 == 0 then 0x00802081 else 0x00000081)
         else (if x & 1 == 0 then 0x00000001 else 0x00002000))
       else
        (if x & 2 == 0 then (if x & 1 == 0 then 0x00800001 else 0x00002001)
         else (if x & 1 == 0 then 0x00802080 else 0x00800081)))
      else
       (if x & 0x04 == 0 then
        (if x & 2 == 0 then (if x & 1 == 0 then 0x00002001 else 0x00002080)
         else (if x & 1 == 0 then 0x00800000 else 0x00802001))
       else
        (if x & 2 == 0 then (if x & 1 == 0 then 0x00000080 else 0x00800000)
         else (if x & 1 == 0 then 0x00002000 else 0x00802080))))))
  }

  /** Spbox[4], of which only the low six bits of x matter. */
  function Sp4(x: bv32): bv32 {
    (if x & 0x20 == 0 then
     (if x & 0x10 == 0 then
      (if x & 0x08 == 0 then
       (if x & 0x04 == 0 then
        (if x & 2 == 0 then (if x & 1 == 0 then 0x00000100 else 0x02080100)
         else (if x & 1 == 0 then 0x02080000 else 0x42000100))
       else
        (if x & 2 == 0 then (if x & 1 == 0 then 0x00080000 else 0x00000100)
         else (if x & 1 == 0 then 0x40000000 else 0x02080000)))
      else
       (if x & 0x04 == 0 then
        (if x & 2 == 0 then (if x & 1 == 0 then 0x40080100 else 0x00080000)
         else (if x & 1 == 0 then 0x02000100 else 0x40080100))
       else
        (if x & 2 == 0 then (if x & 1 == 0 then 0x42000100 else 0x42080000)
         else (if x & 1 == 0 then 0x00080100 else 0x40000000))))
     else
      (if x & 0x08 == 0 then
       (if x & 0x04 == 0 then
        (if x & 2 == 0 then (if x & 1 == 0 then 0x02000000 else 0x40080000)
         else (if x & 1 == 0 then 0x40080000 else 0x00000000))
       else
        (if x & 2 == 0 then (if x & 1 == 0 then 0x40000100 else 0x42080100)
         else (if x & 1 == 0 then 0x42080100 else 0x02000100)))
      else
       (if x & 0x04 == 0 then
        (if x & 2 == 0 then (if x & 1 == 0 then 0x42080000 else 0x40000100)
         else (if x & 1 == 0 then 0x00000000 else 0x42000000))
       else
        (if x & 2 == 0 then (if x & 1 == 0 then 0x02080100 else 0x02000000)
         else (if x & 1 == 0 then 0x42000000 else 0x00080100)))))
    else
     (if x & 0x10 == 0 then
      (if x & 0x08 == 0 then
       (if x & 0x04 == 0 then
        (if x & 2 == 0 then (if x & 1 == 0 then 0x00080000 else 0x42000100)
         else (if x & 1 == 0 then 0x00000100 else 0x02000000))
       else
        (if x & 2 == 0 then (if x & 1 == 0 then 0x40000000 else 0x02080000)
         else (if x & 1 == 0 then 0x42000100 else 0x40080100)))
      else
       (if x & 0x04 == 0 then
        (if x & 2 == 0 then (if x & 1 == 0 then 0x02000100 else 0x40000000)
         else (if x & 1 == 0 then 0x42080000 else 0x02080100))
       else
        (if x & 2 == 0 then (if x & 1 == 0 then 0x40080100 else 0x00000100)
         else (if x & 1 == 0 then 0x02000000 else 0x42080000))))
     else
      (if x & 0x08 == 0 then
       (if x & 0x04 == 0 then
        (if x & 2 == 0 then (if x & 1 == 0 then 0x42080100 else 0x00080100)
         else (if x & 1 == 0 then 0x42000000 else 0x42080100))
       else
        (if x & 2 == 0 then (if x & 1 == 0 then 0x02080000 else 0x00000000)
         else (if x & 1 == 0 then 0x40080000 else 0x42000000)))
      else
       (if x & 0x04 == 0 then
        (if x & 2 == 0 then (if x & 1 == 0 then 0x00080100 else 0x02000100)
         else (if x & 1 == 0 then 0x40000100 else 0x00080000))
       else
        (if x & 2 == 0 then (if x & 1 == 0 then 0x00000000 else 0x40080000)
         else (if x & 1 == 0 then 0x02080100 else 0x40000100))))))
  }

  /** Spbox[5], of which only the low six bits of x matter. */
  function Sp5(x: bv32): bv32 {
    (if x & 0x20 == 0 then
     (if x & 0x10 == 0 then
      (if x & 0x08 == 0 then
       (if x & 0x04 == 0 then
        (if x & 2 == 0 then (if x & 1 == 0 then 0x20000010 else 0x20400000)
         else (if x & 1 == 0 then 0x00004000 else 0x20404010))
       else
        (if x & 2 == 0 then (if x & 1 == 0 then 0x20400000 else 0x00000010)
         else (if x & 1 == 0 then 0x20404010 else 0x00400000)))
      else
       (if x & 0x04 == 0 then
        (if x & 2 == 0 then (if x & 1 == 0 then 0x20004000 else 0x00404010)
         else (if x & 1 == 0 then 0x00400000 else 0x20000010))
       else
        (if x & 2 == 0 then (if x & 1 == 0 then 0x00400010 else 0x20004000)
         else (if x & 1 == 0 then 0x20000000 else 0x00004010))))
     else
      (if x & 0x08 == 0 then
       (if x & 0x04 == 0 then
        (if x & 2 == 0 then (if x & 1 == 0 then 0x00000000 else 0x00400010)
         else (if x & 1 == 0 then 0x20004010 else 0x00004000))
       else
        (if x & 2 == 0 then (if x & 1 == 0 then 0x00404000 else 0x20004010)
         else (if x & 1 == 0 then 0x00000010 else 0x20400010)))
      else
       (if x & 0x04 == 0 then
        (if x & 2 == 0 then (if x & 1 == 0 then 0x20400010 else 0x00000000)
         else (if x & 1 == 0 then 0x00404010 else 0x20404000))
       else
        (if x & 2 == 0 then (if x & 1 == 0 then 0x00004010 else 0x00404000)
         else (if x & 1 == 0 then 0x20404000 else 0x20000000)))))
    else
     (if x & 0x10 == 0 then
      (if x & 0x08 == 0 then
       (if x & 0x04 == 0 then
        (if x & 2 == 0 then (if x & 1 == 0 then 0x20004000 else 0x00000010)
         else (if x & 1 == 0 then 0x20400010 else 0x00404000))
       else
        (if x & 2 == 0 then (if x & 1 == 0 then 0x20404010 else 0x00400000)
         else (if x & 1 == 0 then 0x00004010 else 0x20000010)))
      else
       (if x & 0x04 == 0 then
        (if x & 2 == 0 then (if x & 1 == 0 then 0x00400000 else 0x20004000)
         else (if x & 1 == 0 then 0x20000000 else 0x00004010))
       else
        (if x & 2 == 0 then (if x & 1 == 0 then 0x20000010 else 0x20404010)
         else (if x & 1 == 0 then 0x00404000 else 0x20400000))))
     else
      (if x & 0x08 == 0 then
       (if x & 0x04 == 0 then
        (if x & 2 == 0 then (if x & 1 == 0 then 0x00404010 else 0x20404000)
         else (if x & 1 == 0 then 0x00000000 else 0x20400010))
       else
        (if x & 2 == 0 then (if x & 1 == 0 then 0x00000010 else 0x00004000)
         else (if x & 1 == 0 then 0x20400000 else 0x00404010)))
      else
       (if x & 0x04 == 0 then
        (if x & 2 == 0 then (if x & 1 == 0 then 0x00004000 else 0x00400010)
         else (if x & 1 == 0 then 0x20004010 else 0x00000000))
       else
        (if x & 2 == 0 then (if x & 1 == 0 then 0x20404000 else 0x20000000)
         else (if x & 1 == 0 then 0x00400010 else 0x20004010))))))
  }

  /** Spbox[6], of which only the low six bits of x matter. */
  function Sp6(x: bv32): bv32 {
    (if x & 0x20 == 0 then
     (if x & 0x10 == 0 then
      (if x & 0x08 == 0 then
       (if x & 0x04 == 0 then
        (if x & 2 == 0 then (if x & 1 == 0 then 0x00200000 else 0x04200002)
         else (if x & 1 == 0 then 0x04000802 else 0x00000000))
       else
        (if x & 2 == 0 then (if x & 1 == 0 then 0x00000800 else 0x04000802)
         else (if x & 1 == 0 then 0x00200802 else 0x04200800)))
      else
       (if x & 0x04 == 0 then
        (if x & 2 == 0 then (if x & 1 == 0 then 0x04200802 else 0x00200000)
         else (if x & 1 == 0 then 0x00000000 else 0x04000002))
       else
        (if x & 2 == 0 then (if x & 1 == 0 then 0x00000002 else 0x04000000)
         else (if x & 1 == 0 then 0x04200002 else 0x00000802))))
     else
      (if x & 0x08 == 0 then
       (if x & 0x04 == 0 then
        (if x & 2 == 0 then (if x & 1 == 0 then 0x04000800 else 0x00200802)
         else (if x & 1 == 0 then 0x00200002 else 0x04000800))
       else
        (if x & 2 == 0 then (if x & 1 == 0 then 0x04000002 else 0x04200000)
         else (if x & 1 == 0 then 0x04200800 else 0x00200002)))
      else
       (if x & 0x04 == 0 then
        (if x & 2 == 0 then (if x & 1 == 0 then 0x04200000 else 0x00000800)
         else (if x & 1 == 0 then 0x00000802 else 0x04200802))
       else
        (if x & 2 == 0 then (if x & 1 == 0 then 0x00200800 else 0x00000002)
         else (if x & 1 == 0 then 0x04000000 else 0x00200800)))))
    else
     (if x & 0x10 == 0 then
      (if x & 0x08 == 0 then
       (if x & 0x04 == 0 then
        (if x & 2 == 0 then (if x & 1 == 0 then 0x04000000 else 0x00200800)
         else (if x & 1 == 0 then 0x00200000 else 0x04000802))
       else
        (if x & 2 == 0 then (if x & 1 == 0 then 0x04000802 else 0x04200002)
         else (if x & 1 == 0 then 0x04200002 else 0x00000002)))
      else
       (if x & 0x04 == 0 then
        (if x & 2 == 0 then (if x & 1 == 0 then 0x00200002 else 0x04000000)
         else (if x & 1 == 0 then 0x04000800 else 0x00200000))
       else
        (if x & 2 == 0 then (if x & 1 == 0 then 0x04200800 else 0x00000802)
         else (if x & 1 == 0 then 0x00200802 else 0x04200800))))
     else
      (if x & 0x08 == 0 then
       (if x & 0x04 == 0 then
        (if x & 2 == 0 then (if x & 1 == 0 then 0x00000802 else 0x04000002)
         else (if x & 1 == 0 then 0x04200802 else 0x04200000))
       else
        (if x & 2 == 0 then (if x & 1 == 0 then 0x00200800 else 0x00000000)
         else (if x & 1 == 0 then 0x00000002 else 0x04200802)))
      else
       (if x & 0x04 == 0 then
        (if x & 2 == 0 then (if x & 1 == 0 then 0x00000000 else 0x00200802)
         else (if x & 1 == 0 then 0x04200000 else 0x00000800))
       else
        (if x & 2 == 0 then (if x & 1 == 0 then 0x04000002 else 0x04000800)
         else (if x & 1 == 0 then 0x00000800 else 0x00200002))))))
  }

  /** Spbox[7], of which only the low six bits of x matter. */
  function Sp7(x: bv32): bv32 {
    (if x & 0x20 == 0 then
     (if x & 0x10 == 0 then
      (if x & 0x08 == 0 then
       (if x & 0x04 == 0 then
        (if x & 2 == 0 then (if x & 1 == 0 then 0x10001040 else 0x00001000)
         else (if x & 1 == 0 then 0x00040000 else 0x10041040))
       else
        (if x & 2 == 0 then (if x & 1 == 0 then 0x10000000 else 0x10001040)
         else (if x & 1 == 0 then 0x00000040 else 0x10000000)))
      else
       (if x & 0x04 == 0 then
        (if x & 2 == 0 then (if x & 1 == 0 then 0x00040040 else 0x10040000)
         else (if x & 1 == 0 then 0x10041040 else 0x00041000))
       else
        (if x & 2 == 0 then (if x & 1 == 0 then 0x10041000 else 0x00041040)
         else (if x & 1 == 0 then 0x00001000 else 0x00000040))))
     else
      (if x & 0x08 == 0 then
       (if x & 0x04 == 0 then
        (if x & 2 == 0 then (if x & 1 == 0 then 0x10040000 else 0x10000040)
         else (if x & 1 == 0 then 0x10001000 else 0x00001040))
       else
        (if x & 2 == 0 then (if x & 1 == 0 then 0x00041000 else 0x00040040)
         else (if x & 1 == 0 then 0x10040040 else 0x10041000)))
      else
       (if x & 0x04 == 0 then
        (if x & 2 == 0 then (if x & 1 == 0 then 0x00001040 else 0x00000000)
         else (if x & 1 == 0 then 0x00000000 else 0x10040040))
       else
        (if x & 2 == 0 then (if x & 1 == 0 then 0x10000040 else 0x10001000)
         else (if x & 1 == 0 then 0x00041040 else 0x00040000)))))
    else
     (if x & 0x10 == 0 then
      (if x & 0x08 == 0 then
       (if x & 0x04 == 0 then
        (if x & 2 == 0 then (if x & 1 == 0 then 0x00041040 else 0x00040000)
         else (if x & 1 == 0 then 0x10041000 else 0x00001000))
       else
        (if x & 2 == 0 then (if x & 1 == 0 then 0x00000040 else 0x10040040)
         else (if x & 1 == 0 then 0x00001000 else 0x00041040)))
      else
       (if x & 0x04 == 0 then
        (if x & 2 == 0 then (if x & 1 == 0 then 0x10001000 else 0x00000040)
         else (if x & 1 == 0 then 0x10000040 else 0x10040000))
       else
        (if x & 2 == 0 then (if x & 1 == 0 then 0x10040040 else 0x10000000)
         else (if x & 1 == 0 then 0x00040000 else 0x10001040))))
     else
      (if x & 0x08 == 0 then
       (if x & 0x04 == 0 then
        (if x & 2 == 0 then (if x & 1 == 0 then 0x00000000 else 0x10041040)
         else (if x & 1 == 0 then 0x00040040 else 0x10000040))
       else
        (if x & 2 == 0 then (if x & 1 == 0 then 0x10040000 else 0x10001000)
         else (if x & 1 == 0 then 0x10001040 else 0x00000000)))
      else
       (if x & 0x04 == 0 then
        (if x & 2 == 0 then (if x & 1 == 0 then 0x10041040 else 0x00041000)
         else (if x & 1 == 0 then 0x00041000 else 0x00001040))
       else
        (if x & 2 == 0 then (if x & 1 == 0 then 0x00001040 else 0x00040040)
         else (if x & 1 == 0 then 0x10000000 else 0x10041000))))))
  }

  /** pc1[j]: bit positions from 1 on. */
  function Pc1(j: nat): (r: nat)
    requires j < 56
    ensures 1 <= r <= 64
  {
    (if j < 28 then
     (if j < 16 then
      (if j < 8 then
       (if j < 4 then
        (if j == 0 then 57 else if j == 1 then 49 else if j == 2 then 41 else 33)
       else
        (if j == 4 then 25 else if j == 5 then 17 else if j == 6 then 9 else 1))
      else
       (if j < 12 then
        (if j == 8 then 58 else if j == 9 then 50 else if j == 10 then 42 else 34)
       else
        (if j == 12 then 26 else if j == 13 then 18 else if j == 14 then 10 else 2)))
     else
      (if j < 24 then
       (if j < 20 then
        (if j == 16 then 59 else if j == 17 then 51 else if j == 18 then 43 else 35)
       else
        (if j == 20 then 27 else if j == 21 then 19 else if j == 22 then 11 else 3))
      else
       (if j == 24 then 60 else if j == 25 then 52 else if j == 26 then 44 else 36)))
    else
     (if j < 44 then
      (if j < 36 then
       (if j < 32 then
        (if j == 28 then 63 else if j == 29 then 55 else if j == 30 then 47 else 39)
       else
        (if j == 32 then 31 else if j == 33 then 23 else if j == 34 then 15 else 7))
      else
       (if j < 40 then
        (if j == 36 then 62 else if j == 37 then 54 else if j == 38 then 46 else 38)
       else
        (if j == 40 then 30 else if j == 41 then 22 else if j == 42 then 14 else 6)))
     else
      (if j < 52 then
       (if j < 48 then
        (if j == 44 then 61 else if j == 45 then 53 else if j == 46 then 45 else 37)
       else
        (if j == 48 then 29 else if j == 49 then 21 else if j == 50 then 13 else 5))
      else
       (if j == 52 then 28 else if j == 53 then 20 else if j == 54 then 12 else 4))))
  }

  /** pc2[j]. */
  function Pc2(j: nat): (r: nat)
    requires j < 48
    ensures 1 <= r <= 56
  {
    (if j < 24 then
     (if j < 12 then
      (if j < 8 then
       (if j < 4 then
        (if j == 0 then 14 else if j == 1 then 17 else if j == 2 then 11 else 24)
       else
        (if j == 4 then 1 else if j == 5 then 5 else if j == 6 then 3 else 28))
      else
       (if j == 8 then 15 else if j == 9 then 6 else if j == 10 then 21 else 10))
     else
      (if j < 20 then
       (if j < 16 then
        (if j == 12 then 23 else if j == 13 then 19 else if j == 14 then 12 else 4)
       else
        (if j == 16 then 26 else if j == 17 then 8 else if j == 18 then 16 else 7))
      else
       (if j == 20 then 27 else if j == 21 then 20 else if j == 22 then 13 else 2)))
    else
     (if j < 36 then
      (if j < 32 then
       (if j < 28 then
        (if j == 24 then 41 else if j == 25 then 52 else if j == 26 then 31 else 37)
       else
        (if j == 28 then 47 else if j == 29 then 55 else if j == 30 then 30 else 40))
      else
       (if j == 32 then 51 else if j == 33 then 45 else if j == 34 then 33 else 48))
     else
      (if j < 44 then
       (if j < 40 then
        (if j == 36 then 44 else if j == 37 then 49 else if j == 38 then 39 else 56)
       else
        (if j == 40 then 34 else if j == 41 then 53 else if j == 42 then 46 else 42))
      else
       (if j == 44 then 50 else if j == 45 then 36 else if j == 46 then 29 else 32))))
  }

  /** totrot[j]: rotations from the start up to round j. */
  function TotRot(j: nat): (r: nat)
    requires j < 16
    ensures 1 <= r <= 28
  {
    (if j < 8 then
     (if j < 4 then
      (if j == 0 then 1 else if j == 1 then 2 else if j == 2 then 4 else 6)
     else
      (if j == 4 then 8 else if j == 5 then 10 else if j == 6 then 12 else 14))
    else
     (if j < 12 then
      (if j == 8 then 15 else if j == 9 then 17 else if j == 10 then 19 else 21)
     else
      (if j == 12 then 23 else if j == 13 then 25 else if j == 14 then 27 else 28)))
  }
}
