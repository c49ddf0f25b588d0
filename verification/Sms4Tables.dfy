/**
  The constant tables of sms4.c as decisions on the index, so that each stays a function.
 */
module Sms4Tables {

  /** S_box. */
  function S(x: bv8): bv8 {
    (if x & 0x80 == 0 then
     (if x & 0x40 == 0 then
      (if x & 0x20 == 0 then
       (if x & 0x10 == 0 then
        (if x & 0x08 == 0 then
         (if x & 0x04 == 0 then
          (if x & 2 == 0 then (if x & 1 == 0 then 0xd6 else 0x90) else (if x & 1 == 0 then 0xe9 else 0xfe))
         else
          (if x & 2 == 0 then (if x & 1 == 0 then 0xcc else 0xe1) else (if x & 1 == 0 then 0x3d else 0xb7)))
        else
         (if x & 0x04 == 0 then
          (if x & 2 == 0 then (if x & 1 == 0 then 0x16 else 0xb6) else (if x & 1 == 0 then 0x14 else 0xc2))
         else
          (if x & 2 == 0 then (if x & 1 == 0 then 0x28 else 0xfb) else (if x & 1 == 0 then 0x2c else 0x05))))
       else
        (if x & 0x08 == 0 then
         (if x & 0x04 == 0 then
          (if x & 2 == 0 then (if x & 1 == 0 then 0x2b else 0x67) else (if x & 1 == 0 then 0x9a else 0x76))
         else
          (if x & 2 == 0 then (if x & 1 == 0 then 0x2a else 0xbe) else (if x & 1 == 0 then 0x04 else 0xc3)))
        else
         (if x & 0x04 == 0 then
          (if x & 2 == 0 then (if x & 1 == 0 then 0xaa else 0x44) else (if x & 1 == 0 then 0x13 else 0x26))
         else
          (if x & 2 == 0 then (if x & 1 == 0 then 0x49 else 0x86) else (if x & 1 == 0 then 0x06 else 0x99)))))
      else
       (if x & 0x10 == 0 then
        (if x & 0x08 == 0 then
         (if x & 0x04 == 0 then
          (if x & 2 == 0 then (if x & 1 == 0 then 0x9c else 0x42) else (if x & 1 == 0 then 0x50 else 0xf4))
         else
          (if x & 2 == 0 then (if x & 1 == 0 then 0x91 else 0xef) else (if x & 1 == 0 then 0x98 else 0x7a)))
        else
         (if x & 0x04 == 0 then
          (if x & 2 == 0 then (if x & 1 == 0 then 0x33 else 0x54) else (if x & 1 == 0 then 0x0b else 0x43))
         else
          (if x & 2 == 0 then (if x & 1 == 0 then 0xed else 0xcf) else (if x & 1 == 0 then 0xac else 0x62))))
       else
        (if x & 0x08 == 0 then
         (if x & 0x04 == 0 then
          (if x & 2 == 0 then (if x & 1 == 0 then 0xe4 else 0xb3) else (if x & 1 == 0 then 0x1c else 0xa9))
         else
          (if x & 2 == 0 then (if x & 1 == 0 then 0xc9 else 0x08) else (if x & 1 == 0 then 0xe8 else 0x95)))
        else
         (if x & 0x04 == 0 then
          (if x & 2 == 0 then (if x & 1 == 0 then 0x80 else 0xdf) else (if x & 1 == 0 then 0x94 else 0xfa))
         else
          (if x & 2 == 0 then (if x & 1 == 0 then 0x75 else 0x8f) else (if x & 1 == 0 then 0x3f else 0xa6))))))
     else
      (if x & 0x20 == 0 then
       (if x & 0x10 == 0 then
        (if x & 0x08 == 0 then
         (if x & 0x04 == 0 then
          (if x & 2 == 0 then (if x & 1 == 0 then 0x47 else 0x07) else (if x & 1 == 0 then 0xa7 else 0xfc))
         else
          (if x & 2 == 0 then (if x & 1 == 0 then 0xf3 else 0x73) else (if x & 1 == 0 then 0x17 else 0xba)))
        else
         (if x & 0x04 == 0 then
          (if x & 2 == 0 then (if x & 1 == 0 then 0x83 else 0x59) else (if x & 1 == 0 then 0x3c else 0x19))
         else
          (if x & 2 == 0 then (if x & 1 == 0 then 0xe6 else 0x85) else (if x & 1 == 0 then 0x4f else 0xa8))))
       else
        (if x & 0x08 == 0 then
         (if x & 0x04 == 0 then
          (if x & 2 == 0 then (if x & 1 == 0 then 0x68 else 0x6b) else (if x & 1 == 0 then 0x81 else 0xb2))
         else
          (if x & 2 == 0 then (if x & 1 == 0 then 0x71 else 0x64) else (if x & 1 == 0 then 0xda else 0x8b)))
        else
         (if x & 0x04 == 0 then
          (if x & 2 == 0 then (if x & 1 == 0 then 0xf8 else 0xeb) else (if x & 1 == 0 then 0x0f else 0x4b))
         else
          (if x & 2 == 0 then (if x & 1 == 0 then 0x70 else 0x56) else (if x & 1 == 0 then 0x9d else 0x35)))))
      else
       (if x & 0x10 == 0 then
        (if x & 0x08 == 0 then
         (if x & 0x04 == 0 then
          (if x & 2 == 0 then (if x & 1 == 0 then 0x1e else 0x24) else (if x & 1 == 0 then 0x0e else 0x5e))
         else
          (if x & 2 == 0 then (if x & 1 == 0 then 0x63 else 0x58) else (if x & 1 == 0 then 0xd1 else 0xa2)))
        else
         (if x & 0x04 == 0 then
          (if x & 2 == 0 then (if x & 1 == 0 then 0x25 else 0x22) else (if x & 1 == 0 then 0x7c else 0x3b))
         else
          (if x & 2 == 0 then (if x & 1 == 0 then 0x01 else 0x21) else (if x & 1 == 0 then 0x78 else 0x87))))
       else
        (if x & 0x08 == 0 then
         (if x & 0x04 == 0 then
          (if x & 2 == 0 then (if x & 1 == 0 then 0xd4 else 0x00) else (if x & 1 == 0 then 0x46 else 0x57))
         else
          (if x & 2 == 0 then (if x & 1 == 0 then 0x9f else 0xd3) else (if x & 1 == 0 then 0x27 else 0x52)))
        else
         (if x & 0x04 == 0 then
          (if x & 2 == 0 then (if x & 1 == 0 then 0x4c else 0x36) else (if x & 1 == 0 then 0x02 else 0xe7))
         else
          (if x & 2 == 0 then (if x & 1 == 0 then 0xa0 else 0xc4) else (if x & 1 == 0 then 0xc8 else 0x9e)))))))
    else
     (if x & 0x40 == 0 then
      (if x & 0x20 == 0 then
       (if x & 0x10 == 0 then
        (if x & 0x08 == 0 then
         (if x & 0x04 == 0 then
          (if x & 2 == 0 then (if x & 1 == 0 then 0xea else 0xbf) else (if x & 1 == 0 then 0x8a else 0xd2))
         else
          (if x & 2 == 0 then (if x & 1 == 0 then 0x40 else 0xc7) else (if x & 1 == 0 then 0x38 else 0xb5)))
        else
         (if x & 0x04 == 0 then
          (if x & 2 == 0 then (if x & 1 == 0 then 0xa3 else 0xf7) else (if x & 1 == 0 then 0xf2 else 0xce))
         else
          (if x & 2 == 0 then (if x & 1 == 0 then 0xf9 else 0x61) else (if x & 1 == 0 then 0x15 else 0xa1))))
       else
        (if x & 0x08 == 0 then
         (if x & 0x04 == 0 then
          (if x & 2 == 0 then (if x & 1 == 0 then 0xe0 else 0xae) else (if x & 1 == 0 then 0x5d else 0xa4))
         else
          (if x & 2 == 0 then (if x & 1 == 0 then 0x9b else 0x34) else (if x & 1 == 0 then 0x1a else 0x55)))
        else
         (if x & 0x04 == 0 then
          (if x & 2 == 0 then (if x & 1 == 0 then 0xad else 0x93) else (if x & 1 == 0 then 0x32 else 0x30))
         else
          (if x & 2 == 0 then (if x & 1 == 0 then 0xf5 else 0x8c) else (if x & 1 == 0 then 0xb1 else 0xe3)))))
      else
       (if x & 0x10 == 0 then
        (if x & 0x08 == 0 then
         (if x & 0x04 == 0 then
          (if x & 2 == 0 then (if x & 1 == 0 then 0x1d else 0xf6) else (if x & 1 == 0 then 0xe2 else 0x2e))
         else
          (if x & 2 == 0 then (if x & 1 == 0 then 0x82 else 0x66) else (if x & 1 == 0 then 0xca else 0x60)))
        else
         (if x & 0x04 == 0 then
          (if x & 2 == 0 then (if x & 1 == 0 then 0xc0 else 0x29) else (if x & 1 == 0 then 0x23 else 0xab))
         else
          (if x & 2 == 0 then (if x & 1 == 0 then 0x0d else 0x53) else (if x & 1 == 0 then 0x4e else 0x6f))))
       else
        (if x & 0x08 == 0 then
         (if x & 0x04 == 0 then
          (if x & 2 == 0 then (if x & 1 == 0 then 0xd5 else 0xdb) else (if x & 1 == 0 then 0x37 else 0x45))
         else
          (if x & 2 == 0 then (if x & 1 == 0 then 0xde else 0xfd) else (if x & 1 == 0 then 0x8e else 0x2f)))
        else
         (if x & 0x04 == 0 then
          (if x & 2 == 0 then (if x & 1 == 0 then 0x03 else 0xff) else (if x & 1 == 0 then 0x6a else 0x72))
         else
          (if x & 2 == 0 then (if x & 1 == 0 then 0x6d else 0x6c) else (if x & 1 == 0 then 0x5b else 0x51))))))
     else
      (if x & 0x20 == 0 then
       (if x & 0x10 == 0 then
        (if x & 0x08 == 0 then
         (if x & 0x04 == 0 then
          (if x & 2 == 0 then (if x & 1 == 0 then 0x8d else 0x1b) else (if x & 1 == 0 then 0xaf else 0x92))
         else
          (if x & 2 == 0 then (if x & 1 == 0 then 0xbb else 0xdd) else (if x & 1 == 0 then 0xbc else 0x7f)))
        else
         (if x & 0x04 == 0 then
          (if x & 2 == 0 then (if x & 1 == 0 then 0x11 else 0xd9) else (if x & 1 == 0 then 0x5c else 0x41))
         else
          (if x & 2 == 0 then (if x & 1 == 0 then 0x1f else 0x10) else (if x & 1 == 0 then 0x5a else 0xd8))))
       else
        (if x & 0x08 == 0 then
         (if x & 0x04 == 0 then
          (if x & 2 == 0 then (if x & 1 == 0 then 0x0a else 0xc1) else (if x & 1 == 0 then 0x31 else 0x88))
         else
          (if x & 2 == 0 then (if x & 1 == 0 then 0xa5 else 0xcd) else (if x & 1 == 0 then 0x7b else 0xbd)))
        else
         (if x & 0x04 == 0 then
          (if x & 2 == 0 then (if x & 1 == 0 then 0x2d else 0x74) else (if x & 1 == 0 then 0xd0 else 0x12))
         else
          (if x & 2 == 0 then (if x & 1 == 0 then 0xb8 else 0xe5) else (if x & 1 == 0 then 0xb4 else 0xb0)))))
      else
       (if x & 0x10 == 0 then
        (if x & 0x08 == 0 then
         (if x & 0x04 == 0 then
          (if x & 2 == 0 then (if x & 1 == 0 then 0x89 else 0x69) else (if x & 1 == 0 then 0x97 else 0x4a))
         else
          (if x & 2 == 0 then (if x & 1 == 0 then 0x0c else 0x96) else (if x & 1 == 0 then 0x77 else 0x7e)))
        else
         (if x & 0x04 == 0 then
          (if x & 2 == 0 then (if x & 1 == 0 then 0x65 else 0xb9) else (if x & 1 == 0 then 0xf1 else 0x09))
         else
          (if x & 2 == 0 then (if x & 1 == 0 then 0xc5 else 0x6e) else (if x & 1 == 0 then 0xc6 else 0x84))))
       else
        (if x & 0x08 == 0 then
         (if x & 0x04 == 0 then
          (if x & 2 == 0 then (if x & 1 == 0 then 0x18 else 0xf0) else (if x & 1 == 0 then 0x7d else 0xec))
         else
          (if x & 2 == 0 then (if x & 1 == 0 then 0x3a else 0xdc) else (if x & 1 == 0 then 0x4d else 0x20)))
        else
         (if x & 0x04 == 0 then
          (if x & 2 == 0 then (if x & 1 == 0 then 0x79 else 0xee) else (if x & 1 == 0 then 0x5f else 0x3e))
         else
          (if x & 2 == 0 then (if x & 1 == 0 then 0xd7 else 0xcb) else (if x & 1 == 0 then 0x39 else 0x48))))))))
  }

  /** CK[i]. */
  function CK(i: nat): bv32
    requires i < 32
  {
    (if i < 16 then
     (if i < 8 then
      (if i < 4 then
       (if i == 0 then 0x00070e15 else if i == 1 then 0x1c232a31 else if i == 2 then 0x383f464d else 0x545b6269)
      else
       (if i == 4 then 0x70777e85 else if i == 5 then 0x8c939aa1 else if i == 6 then 0xa8afb6bd else 0xc4cbd2d9))
     else
      (if i < 12 then
       (if i == 8 then 0xe0e7eef5 else if i == 9 then 0xfc030a11 else if i == 10 then 0x181f262d else 0x343b4249)
      else
       (if i == 12 then 0x50575e65 else if i == 13 then 0x6c737a81 else if i == 14 then 0x888f969d else 0xa4abb2b9)))
    else
     (if i < 24 then
      (if i < 20 then
       (if i == 16 then 0xc0c7ced5 else if i == 17 then 0xdce3eaf1 else if i == 18 then 0xf8ff060d else 0x141b2229)
      else
       (if i == 20 then 0x30373e45 else if i == 21 then 0x4c535a61 else if i == 22 then 0x686f767d else 0x848b9299))
     else
      (if i < 28 then
       (if i == 24 then 0xa0a7aeb5 else if i == 25 then 0xbcc3cad1 else if i == 26 then 0xd8dfe6ed else 0xf4fb0209)
      else
       (if i == 28 then 0x10171e25 else if i == 29 then 0x2c333a41 else if i == 30 then 0x484f565d else 0x646b7279))))
  }

  /** FK[i]. */
  function FK(i: nat): bv32
    requires i < 4
  {
    if i == 0 then 0xA3B1BAC6 else if i == 1 then 0x56AA3350 else if i == 2 then 0x677D9197 else 0xB27022DC
  }
}
