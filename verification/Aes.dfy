/**
 AES and its CBC mode, bench/aes.c: the state transformations on blocks of 16 bytes, Cipher and
 InvCipher for any number of rounds, and the CBC buffer functions.

 A block is the state of four columns of four bytes, in the order of the buffer.
 */
module Aes {
  datatype Column = Column(a: bv8, b: bv8, c: bv8, d: bv8)

  datatype Block = Block(c0: Column, c1: Column, c2: Column, c3: Column)

  /** The table sbox, as a decision tree over the index. */
  function Sbox(x: bv8): bv8 {
    (if x < 0x80 then
     (if x < 0x40 then
      (if x < 0x20 then
       (if x < 0x10 then
        (if x < 0x08 then
         (if x < 0x04 then
          (if x < 0x02 then (if x < 0x01 then 0x63 else 0x7c) else (if x < 0x03 then 0x77 else 0x7b))
         else
          (if x < 0x06 then (if x < 0x05 then 0xf2 else 0x6b) else (if x < 0x07 then 0x6f else 0xc5)))
        else
         (if x < 0x0c then
          (if x < 0x0a then (if x < 0x09 then 0x30 else 0x01) else (if x < 0x0b then 0x67 else 0x2b))
         else
          (if x < 0x0e then (if x < 0x0d then 0xfe else 0xd7) else (if x < 0x0f then 0xab else 0x76))))
       else
        (if x < 0x18 then
         (if x < 0x14 then
          (if x < 0x12 then (if x < 0x11 then 0xca else 0x82) else (if x < 0x13 then 0xc9 else 0x7d))
         else
          (if x < 0x16 then (if x < 0x15 then 0xfa else 0x59) else (if x < 0x17 then 0x47 else 0xf0)))
        else
         (if x < 0x1c then
          (if x < 0x1a then (if x < 0x19 then 0xad else 0xd4) else (if x < 0x1b then 0xa2 else 0xaf))
         else
          (if x < 0x1e then (if x < 0x1d then 0x9c else 0xa4) else (if x < 0x1f then 0x72 else 0xc0)))))
      else
       (if x < 0x30 then
        (if x < 0x28 then
         (if x < 0x24 then
          (if x < 0x22 then (if x < 0x21 then 0xb7 else 0xfd) else (if x < 0x23 then 0x93 else 0x26))
         else
          (if x < 0x26 then (if x < 0x25 then 0x36 else 0x3f) else (if x < 0x27 then 0xf7 else 0xcc)))
        else
         (if x < 0x2c then
          (if x < 0x2a then (if x < 0x29 then 0x34 else 0xa5) else (if x < 0x2b then 0xe5 else 0xf1))
         else
          (if x < 0x2e then (if x < 0x2d then 0x71 else 0xd8) else (if x < 0x2f then 0x31 else 0x15))))
       else
        (if x < 0x38 then
         (if x < 0x34 then
          (if x < 0x32 then (if x < 0x31 then 0x04 else 0xc7) else (if x < 0x33 then 0x23 else 0xc3))
         else
          (if x < 0x36 then (if x < 0x35 then 0x18 else 0x96) else (if x < 0x37 then 0x05 else 0x9a)))
        else
         (if x < 0x3c then
          (if x < 0x3a then (if x < 0x39 then 0x07 else 0x12) else (if x < 0x3b then 0x80 else 0xe2))
         else
          (if x < 0x3e then (if x < 0x3d then 0xeb else 0x27) else (if x < 0x3f then 0xb2 else 0x75))))))
     else
      (if x < 0x60 then
       (if x < 0x50 then
        (if x < 0x48 then
         (if x < 0x44 then
          (if x < 0x42 then (if x < 0x41 then 0x09 else 0x83) else (if x < 0x43 then 0x2c else 0x1a))
         else
          (if x < 0x46 then (if x < 0x45 then 0x1b else 0x6e) else (if x < 0x47 then 0x5a else 0xa0)))
        else
         (if x < 0x4c then
          (if x < 0x4a then (if x < 0x49 then 0x52 else 0x3b) else (if x < 0x4b then 0xd6 else 0xb3))
         else
          (if x < 0x4e then (if x < 0x4d then 0x29 else 0xe3) else (if x < 0x4f then 0x2f else 0x84))))
       else
        (if x < 0x58 then
         (if x < 0x54 then
          (if x < 0x52 then (if x < 0x51 then 0x53 else 0xd1) else (if x < 0x53 then 0x00 else 0xed))
         else
          (if x < 0x56 then (if x < 0x55 then 0x20 else 0xfc) else (if x < 0x57 then 0xb1 else 0x5b)))
        else
         (if x < 0x5c then
          (if x < 0x5a then (if x < 0x59 then 0x6a else 0xcb) else (if x < 0x5b then 0xbe else 0x39))
         else
          (if x < 0x5e then (if x < 0x5d then 0x4a else 0x4c) else (if x < 0x5f then 0x58 else 0xcf)))))
      else
       (if x < 0x70 then
        (if x < 0x68 then
         (if x < 0x64 then
          (if x < 0x62 then (if x < 0x61 then 0xd0 else 0xef) else (if x < 0x63 then 0xaa else 0xfb))
         else
          (if x < 0x66 then (if x < 0x65 then 0x43 else 0x4d) else (if x < 0x67 then 0x33 else 0x85)))
        else
         (if x < 0x6c then
          (if x < 0x6a then (if x < 0x69 then 0x45 else 0xf9) else (if x < 0x6b then 0x02 else 0x7f))
         else
          (if x < 0x6e then (if x < 0x6d then 0x50 else 0x3c) else (if x < 0x6f then 0x9f else 0xa8))))
       else
        (if x < 0x78 then
         (if x < 0x74 then
          (if x < 0x72 then (if x < 0x71 then 0x51 else 0xa3) else (if x < 0x73 then 0x40 else 0x8f))
         else
          (if x < 0x76 then (if x < 0x75 then 0x92 else 0x9d) else (if x < 0x77 then 0x38 else 0xf5)))
        else
         (if x < 0x7c then
          (if x < 0x7a then (if x < 0x79 then 0xbc else 0xb6) else (if x < 0x7b then 0xda else 0x21))
         else
          (if x < 0x7e then (if x < 0x7d then 0x10 else 0xff) else (if x < 0x7f then 0xf3 else 0xd2)))))))
    else
     (if x < 0xc0 then
      (if x < 0xa0 then
       (if x < 0x90 then
        (if x < 0x88 then
         (if x < 0x84 then
          (if x < 0x82 then (if x < 0x81 then 0xcd else 0x0c) else (if x < 0x83 then 0x13 else 0xec))
         else
          (if x < 0x86 then (if x < 0x85 then 0x5f else 0x97) else (if x < 0x87 then 0x44 else 0x17)))
        else
         (if x < 0x8c then
          (if x < 0x8a then (if x < 0x89 then 0xc4 else 0xa7) else (if x < 0x8b then 0x7e else 0x3d))
         else
          (if x < 0x8e then (if x < 0x8d then 0x64 else 0x5d) else (if x < 0x8f then 0x19 else 0x73))))
       else
        (if x < 0x98 then
         (if x < 0x94 then
          (if x < 0x92 then (if x < 0x91 then 0x60 else 0x81) else (if x < 0x93 then 0x4f else 0xdc))
         else
          (if x < 0x96 then (if x < 0x95 then 0x22 else 0x2a) else (if x < 0x97 then 0x90 else 0x88)))
        else
         (if x < 0x9c then
          (if x < 0x9a then (if x < 0x99 then 0x46 else 0xee) else (if x < 0x9b then 0xb8 else 0x14))
         else
          (if x < 0x9e then (if x < 0x9d then 0xde else 0x5e) else (if x < 0x9f then 0x0b else 0xdb)))))
      else
       (if x < 0xb0 then
        (if x < 0xa8 then
         (if x < 0xa4 then
          (if x < 0xa2 then (if x < 0xa1 then 0xe0 else 0x32) else (if x < 0xa3 then 0x3a else 0x0a))
         else
          (if x < 0xa6 then (if x < 0xa5 then 0x49 else 0x06) else (if x < 0xa7 then 0x24 else 0x5c)))
        else
         (if x < 0xac then
          (if x < 0xaa then (if x < 0xa9 then 0xc2 else 0xd3) else (if x < 0xab then 0xac else 0x62))
         else
          (if x < 0xae then (if x < 0xad then 0x91 else 0x95) else (if x < 0xaf then 0xe4 else 0x79))))
       else
        (if x < 0xb8 then
         (if x < 0xb4 then
          (if x < 0xb2 then (if x < 0xb1 then 0xe7 else 0xc8) else (if x < 0xb3 then 0x37 else 0x6d))
         else
          (if x < 0xb6 then (if x < 0xb5 then 0x8d else 0xd5) else (if x < 0xb7 then 0x4e else 0xa9)))
        else
         (if x < 0xbc then
          (if x < 0xba then (if x < 0xb9 then 0x6c else 0x56) else (if x < 0xbb then 0xf4 else 0xea))
         else
          (if x < 0xbe then (if x < 0xbd then 0x65 else 0x7a) else (if x < 0xbf then 0xae else 0x08))))))
     else
      (if x < 0xe0 then
       (if x < 0xd0 then
        (if x < 0xc8 then
         (if x < 0xc4 then
          (if x < 0xc2 then (if x < 0xc1 then 0xba else 0x78) else (if x < 0xc3 then 0x25 else 0x2e))
         else
          (if x < 0xc6 then (if x < 0xc5 then 0x1c else 0xa6) else (if x < 0xc7 then 0xb4 else 0xc6)))
        else
         (if x < 0xcc then
          (if x < 0xca then (if x < 0xc9 then 0xe8 else 0xdd) else (if x < 0xcb then 0x74 else 0x1f))
         else
          (if x < 0xce then (if x < 0xcd then 0x4b else 0xbd) else (if x < 0xcf then 0x8b else 0x8a))))
       else
        (if x < 0xd8 then
         (if x < 0xd4 then
          (if x < 0xd2 then (if x < 0xd1 then 0x70 else 0x3e) else (if x < 0xd3 then 0xb5 else 0x66))
         else
          (if x < 0xd6 then (if x < 0xd5 then 0x48 else 0x03) else (if x < 0xd7 then 0xf6 else 0x0e)))
        else
         (if x < 0xdc then
          (if x < 0xda then (if x < 0xd9 then 0x61 else 0x35) else (if x < 0xdb then 0x57 else 0xb9))
         else
          (if x < 0xde then (if x < 0xdd then 0x86 else 0xc1) else (if x < 0xdf then 0x1d else 0x9e)))))
      else
       (if x < 0xf0 then
        (if x < 0xe8 then
         (if x < 0xe4 then
          (if x < 0xe2 then (if x < 0xe1 then 0xe1 else 0xf8) else (if x < 0xe3 then 0x98 else 0x11))
         else
          (if x < 0xe6 then (if x < 0xe5 then 0x69 else 0xd9) else (if x < 0xe7 then 0x8e else 0x94)))
        else
         (if x < 0xec then
          (if x < 0xea then (if x < 0xe9 then 0x9b else 0x1e) else (if x < 0xeb then 0x87 else 0xe9))
         else
          (if x < 0xee then (if x < 0xed then 0xce else 0x55) else (if x < 0xef then 0x28 else 0xdf))))
       else
        (if x < 0xf8 then
         (if x < 0xf4 then
          (if x < 0xf2 then (if x < 0xf1 then 0x8c else 0xa1) else (if x < 0xf3 then 0x89 else 0x0d))
         else
          (if x < 0xf6 then (if x < 0xf5 then 0xbf else 0xe6) else (if x < 0xf7 then 0x42 else 0x68)))
        else
         (if x < 0xfc then
          (if x < 0xfa then (if x < 0xf9 then 0x41 else 0x99) else (if x < 0xfb then 0x2d else 0x0f))
         else
          (if x < 0xfe then (if x < 0xfd then 0xb0 else 0x54) else (if x < 0xff then 0xbb else 0x16))))))))
  }

  /** The table rsbox. */
  function Rsbox(x: bv8): bv8 {
    (if x < 0x80 then
     (if x < 0x40 then
      (if x < 0x20 then
       (if x < 0x10 then
        (if x < 0x08 then
         (if x < 0x04 then
          (if x < 0x02 then (if x < 0x01 then 0x52 else 0x09) else (if x < 0x03 then 0x6a else 0xd5))
         else
          (if x < 0x06 then (if x < 0x05 then 0x30 else 0x36) else (if x < 0x07 then 0xa5 else 0x38)))
        else
         (if x < 0x0c then
          (if x < 0x0a then (if x < 0x09 then 0xbf else 0x40) else (if x < 0x0b then 0xa3 else 0x9e))
         else
          (if x < 0x0e then (if x < 0x0d then 0x81 else 0xf3) else (if x < 0x0f then 0xd7 else 0xfb))))
       else
        (if x < 0x18 then
         (if x < 0x14 then
          (if x < 0x12 then (if x < 0x11 then 0x7c else 0xe3) else (if x < 0x13 then 0x39 else 0x82))
         else
          (if x < 0x16 then (if x < 0x15 then 0x9b else 0x2f) else (if x < 0x17 then 0xff else 0x87)))
        else
         (if x < 0x1c then
          (if x < 0x1a then (if x < 0x19 then 0x34 else 0x8e) else (if x < 0x1b then 0x43 else 0x44))
         else
          (if x < 0x1e then (if x < 0x1d then 0xc4 else 0xde) else (if x < 0x1f then 0xe9 else 0xcb)))))
      else
       (if x < 0x30 then
        (if x < 0x28 then
         (if x < 0x24 then
          (if x < 0x22 then (if x < 0x21 then 0x54 else 0x7b) else (if x < 0x23 then 0x94 else 0x32))
         else
          (if x < 0x26 then (if x < 0x25 then 0xa6 else 0xc2) else (if x < 0x27 then 0x23 else 0x3d)))
        else
         (if x < 0x2c then
          (if x < 0x2a then (if x < 0x29 then 0xee else 0x4c) else (if x < 0x2b then 0x95 else 0x0b))
         else
          (if x < 0x2e then (if x < 0x2d then 0x42 else 0xfa) else (if x < 0x2f then 0xc3 else 0x4e))))
       else
        (if x < 0x38 then
         (if x < 0x34 then
          (if x < 0x32 then (if x < 0x31 then 0x08 else 0x2e) else (if x < 0x33 then 0xa1 else 0x66))
         else
          (if x < 0x36 then (if x < 0x35 then 0x28 else 0xd9) else (if x < 0x37 then 0x24 else 0xb2)))
        else
         (if x < 0x3c then
          (if x < 0x3a then (if x < 0x39 then 0x76 else 0x5b) else (if x < 0x3b then 0xa2 else 0x49))
         else
          (if x < 0x3e then (if x < 0x3d then 0x6d else 0x8b) else (if x < 0x3f then 0xd1 else 0x25))))))
     else
      (if x < 0x60 then
       (if x < 0x50 then
        (if x < 0x48 then
         (if x < 0x44 then
          (if x < 0x42 then (if x < 0x41 then 0x72 else 0xf8) else (if x < 0x43 then 0xf6 else 0x64))
         else
          (if x < 0x46 then (if x < 0x45 then 0x86 else 0x68) else (if x < 0x47 then 0x98 else 0x16)))
        else
         (if x < 0x4c then
          (if x < 0x4a then (if x < 0x49 then 0xd4 else 0xa4) else (if x < 0x4b then 0x5c else 0xcc))
         else
          (if x < 0x4e then (if x < 0x4d then 0x5d else 0x65) else (if x < 0x4f then 0xb6 else 0x92))))
       else
        (if x < 0x58 then
         (if x < 0x54 then
          (if x < 0x52 then (if x < 0x51 then 0x6c else 0x70) else (if x < 0x53 then 0x48 else 0x50))
         else
          (if x < 0x56 then (if x < 0x55 then 0xfd else 0xed) else (if x < 0x57 then 0xb9 else 0xda)))
        else
         (if x < 0x5c then
          (if x < 0x5a then (if x < 0x59 then 0x5e else 0x15) else (if x < 0x5b then 0x46 else 0x57))
         else
          (if x < 0x5e then (if x < 0x5d then 0xa7 else 0x8d) else (if x < 0x5f then 0x9d else 0x84)))))
      else
       (if x < 0x70 then
        (if x < 0x68 then
         (if x < 0x64 then
          (if x < 0x62 then (if x < 0x61 then 0x90 else 0xd8) else (if x < 0x63 then 0xab else 0x00))
         else
          (if x < 0x66 then (if x < 0x65 then 0x8c else 0xbc) else (if x < 0x67 then 0xd3 else 0x0a)))
        else
         (if x < 0x6c then
          (if x < 0x6a then (if x < 0x69 then 0xf7 else 0xe4) else (if x < 0x6b then 0x58 else 0x05))
         else
          (if x < 0x6e then (if x < 0x6d then 0xb8 else 0xb3) else (if x < 0x6f then 0x45 else 0x06))))
       else
        (if x < 0x78 then
         (if x < 0x74 then
          (if x < 0x72 then (if x < 0x71 then 0xd0 else 0x2c) else (if x < 0x73 then 0x1e else 0x8f))
         else
          (if x < 0x76 then (if x < 0x75 then 0xca else 0x3f) else (if x < 0x77 then 0x0f else 0x02)))
        else
         (if x < 0x7c then
          (if x < 0x7a then (if x < 0x79 then 0xc1 else 0xaf) else (if x < 0x7b then 0xbd else 0x03))
         else
          (if x < 0x7e then (if x < 0x7d then 0x01 else 0x13) else (if x < 0x7f then 0x8a else 0x6b)))))))
    else
     (if x < 0xc0 then
      (if x < 0xa0 then
       (if x < 0x90 then
        (if x < 0x88 then
         (if x < 0x84 then
          (if x < 0x82 then (if x < 0x81 then 0x3a else 0x91) else (if x < 0x83 then 0x11 else 0x41))
         else
          (if x < 0x86 then (if x < 0x85 then 0x4f else 0x67) else (if x < 0x87 then 0xdc else 0xea)))
        else
         (if x < 0x8c then
          (if x < 0x8a then (if x < 0x89 then 0x97 else 0xf2) else (if x < 0x8b then 0xcf else 0xce))
         else
          (if x < 0x8e then (if x < 0x8d then 0xf0 else 0xb4) else (if x < 0x8f then 0xe6 else 0x73))))
       else
        (if x < 0x98 then
         (if x < 0x94 then
          (if x < 0x92 then (if x < 0x91 then 0x96 else 0xac) else (if x < 0x93 then 0x74 else 0x22))
         else
          (if x < 0x96 then (if x < 0x95 then 0xe7 else 0xad) else (if x < 0x97 then 0x35 else 0x85)))
        else
         (if x < 0x9c then
          (if x < 0x9a then (if x < 0x99 then 0xe2 else 0xf9) else (if x < 0x9b then 0x37 else 0xe8))
         else
          (if x < 0x9e then (if x < 0x9d then 0x1c else 0x75) else (if x < 0x9f then 0xdf else 0x6e)))))
      else
       (if x < 0xb0 then
        (if x < 0xa8 then
         (if x < 0xa4 then
          (if x < 0xa2 then (if x < 0xa1 then 0x47 else 0xf1) else (if x < 0xa3 then 0x1a else 0x71))
         else
          (if x < 0xa6 then (if x < 0xa5 then 0x1d else 0x29) else (if x < 0xa7 then 0xc5 else 0x89)))
        else
         (if x < 0xac then
          (if x < 0xaa then (if x < 0xa9 then 0x6f else 0xb7) else (if x < 0xab then 0x62 else 0x0e))
         else
          (if x < 0xae then (if x < 0xad then 0xaa else 0x18) else (if x < 0xaf then 0xbe else 0x1b))))
       else
        (if x < 0xb8 then
         (if x < 0xb4 then
          (if x < 0xb2 then (if x < 0xb1 then 0xfc else 0x56) else (if x < 0xb3 then 0x3e else 0x4b))
         else
          (if x < 0xb6 then (if x < 0xb5 then 0xc6 else 0xd2) else (if x < 0xb7 then 0x79 else 0x20)))
        else
         (if x < 0xbc then
          (if x < 0xba then (if x < 0xb9 then 0x9a else 0xdb) else (if x < 0xbb then 0xc0 else 0xfe))
         else
          (if x < 0xbe then (if x < 0xbd then 0x78 else 0xcd) else (if x < 0xbf then 0x5a else 0xf4))))))
     else
      (if x < 0xe0 then
       (if x < 0xd0 then
        (if x < 0xc8 then
         (if x < 0xc4 then
          (if x < 0xc2 then (if x < 0xc1 then 0x1f else 0xdd) else (if x < 0xc3 then 0xa8 else 0x33))
         else
          (if x < 0xc6 then (if x < 0xc5 then 0x88 else 0x07) else (if x < 0xc7 then 0xc7 else 0x31)))
        else
         (if x < 0xcc then
          (if x < 0xca then (if x < 0xc9 then 0xb1 else 0x12) else (if x < 0xcb then 0x10 else 0x59))
         else
          (if x < 0xce then (if x < 0xcd then 0x27 else 0x80) else (if x < 0xcf then 0xec else 0x5f))))
       else
        (if x < 0xd8 then
         (if x < 0xd4 then
          (if x < 0xd2 then (if x < 0xd1 then 0x60 else 0x51) else (if x < 0xd3 then 0x7f else 0xa9))
         else
          (if x < 0xd6 then (if x < 0xd5 then 0x19 else 0xb5) else (if x < 0xd7 then 0x4a else 0x0d)))
        else
         (if x < 0xdc then
          (if x < 0xda then (if x < 0xd9 then 0x2d else 0xe5) else (if x < 0xdb then 0x7a else 0x9f))
         else
          (if x < 0xde then (if x < 0xdd then 0x93 else 0xc9) else (if x < 0xdf then 0x9c else 0xef)))))
      else
       (if x < 0xf0 then
        (if x < 0xe8 then
         (if x < 0xe4 then
          (if x < 0xe2 then (if x < 0xe1 then 0xa0 else 0xe0) else (if x < 0xe3 then 0x3b else 0x4d))
         else
          (if x < 0xe6 then (if x < 0xe5 then 0xae else 0x2a) else (if x < 0xe7 then 0xf5 else 0xb0)))
        else
         (if x < 0xec then
          (if x < 0xea then (if x < 0xe9 then 0xc8 else 0xeb) else (if x < 0xeb then 0xbb else 0x3c))
         else
          (if x < 0xee then (if x < 0xed then 0x83 else 0x53) else (if x < 0xef then 0x99 else 0x61))))
       else
        (if x < 0xf8 then
         (if x < 0xf4 then
          (if x < 0xf2 then (if x < 0xf1 then 0x17 else 0x2b) else (if x < 0xf3 then 0x04 else 0x7e))
         else
          (if x < 0xf6 then (if x < 0xf5 then 0xba else 0x77) else (if x < 0xf7 then 0xd6 else 0x26)))
        else
         (if x < 0xfc then
          (if x < 0xfa then (if x < 0xf9 then 0xe1 else 0x69) else (if x < 0xfb then 0x14 else 0x63))
         else
          (if x < 0xfe then (if x < 0xfd then 0x55 else 0x21) else (if x < 0xff then 0x0c else 0x7d))))))))
  }

  /** rsbox undoes sbox. */
  lemma SboxInverse(x: bv8)
    ensures Rsbox(Sbox(x)) == x
  {
  }

  function Xor(x: bv8, y: bv8): bv8 {
    x ^ y
  }

  function Xor4(x: bv8, y: bv8, z: bv8, w: bv8): bv8 {
    Xor(Xor(x, y), Xor(z, w))
  }

  function Xtime(x: bv8): bv8 {
    (x << 1) ^ (((x >> 7) & 1) * 0x1b)
  }

  /** v times the lowest bit of y. */
  function Bit(y: bv8, v: bv8): bv8 {
    if y & 1 == 1 then v else 0
  }

  function Multiply(x: bv8, y: bv8): bv8 {
    var x2 := Xtime(x);
    var x4 := Xtime(x2);
    var x8 := Xtime(x4);
    Xor(Xor4(Bit(y, x), Bit(y >> 1, x2), Bit(y >> 2, x4), Bit(y >> 3, x8)), Bit(y >> 4, Xtime(x8)))
  }

  function MixByte(x: bv8, y: bv8, all: bv8): bv8 {
    Xor(x, Xor(Xtime(Xor(x, y)), all))
  }

  /** One turn of the loop of MixColumns. */
  function Mix(s: Column): Column {
    var all := Xor4(s.a, s.b, s.c, s.d);
    Column(MixByte(s.a, s.b, all), MixByte(s.b, s.c, all), MixByte(s.c, s.d, all), MixByte(s.d, s.a, all))
  }

  function InvMixByte(p: bv8, q: bv8, r: bv8, s: bv8): bv8 {
    Xor4(Multiply(p, 0x0e), Multiply(q, 0x0b), Multiply(r, 0x0d), Multiply(s, 0x09))
  }

  /** One turn of the loop of InvMixColumns; its four sums rotate the same four factors. */
  function InvMix(s: Column): Column {
    Column(InvMixByte(s.a, s.b, s.c, s.d), InvMixByte(s.b, s.c, s.d, s.a), InvMixByte(s.c, s.d, s.a, s.b),
        InvMixByte(s.d, s.a, s.b, s.c))
  }

  function Add(s: Column, t: Column): Column {
    Column(Xor(s.a, t.a), Xor(s.b, t.b), Xor(s.c, t.c), Xor(s.d, t.d))
  }

  // MixColumns and InvMixColumns are linear, so that it is enough to look at one byte at a time.

  lemma XtimeXor(x: bv8, y: bv8)
    ensures Xtime(Xor(x, y)) == Xor(Xtime(x), Xtime(y))
  {
  }

  lemma BitXor(k: bv8, x: bv8, y: bv8)
    ensures Bit(k, Xor(x, y)) == Xor(Bit(k, x), Bit(k, y))
  {
    hide Xor;
    XorZero(0);
  }

  lemma XorZero(x: bv8)
    ensures Xor(x, 0) == x && Xor(0, x) == x
  {
  }

  lemma XorAssociates(x: bv8, y: bv8, z: bv8)
    ensures Xor(Xor(x, y), z) == Xor(x, Xor(y, z))
  {
  }

  lemma XorCommutes(x: bv8, y: bv8)
    ensures Xor(x, y) == Xor(y, x)
  {
  }

  lemma XorTwo(x: bv8, y: bv8, p: bv8, q: bv8)
    ensures Xor(Xor(x, p), Xor(y, q)) == Xor(Xor(x, y), Xor(p, q))
  {
    hide Xor;
    XorAssociates(x, p, Xor(y, q));
    XorAssociates(p, y, q);
    XorCommutes(p, y);
    XorAssociates(y, p, q);
    XorAssociates(x, y, Xor(p, q));
  }

  lemma XorFour(a: bv8, b: bv8, c: bv8, d: bv8, p: bv8, q: bv8, r: bv8, s: bv8)
    ensures Xor4(Xor(a, p), Xor(b, q), Xor(c, r), Xor(d, s)) == Xor(Xor4(a, b, c, d), Xor4(p, q, r, s))
  {
    hide Xor;
    XorTwo(a, b, p, q);
    XorTwo(c, d, r, s);
    XorTwo(Xor(a, b), Xor(c, d), Xor(p, q), Xor(r, s));
  }

  lemma MultiplyXor(x: bv8, y: bv8, k: bv8)
    ensures Multiply(Xor(x, y), k) == Xor(Multiply(x, k), Multiply(y, k))
  {
    hide Xor, Xor4, Xtime, Bit;
    var x2, y2 := Xtime(x), Xtime(y);
    var x4, y4 := Xtime(x2), Xtime(y2);
    var x8, y8 := Xtime(x4), Xtime(y4);
    XtimeXor(x, y);
    XtimeXor(x2, y2);
    XtimeXor(x4, y4);
    XtimeXor(x8, y8);
    BitXor(k, x, y);
    BitXor(k >> 1, x2, y2);
    BitXor(k >> 2, x4, y4);
    BitXor(k >> 3, x8, y8);
    BitXor(k >> 4, Xtime(x8), Xtime(y8));
    XorFour(Bit(k, x), Bit(k >> 1, x2), Bit(k >> 2, x4), Bit(k >> 3, x8), Bit(k, y), Bit(k >> 1, y2), Bit(k >> 2, y4),
        Bit(k >> 3, y8));
    XorTwo(Xor4(Bit(k, x), Bit(k >> 1, x2), Bit(k >> 2, x4), Bit(k >> 3, x8)), Bit(k >> 4, Xtime(x8)),
           Xor4(Bit(k, y), Bit(k >> 1, y2), Bit(k >> 2, y4), Bit(k >> 3, y8)), Bit(k >> 4, Xtime(y8)));
  }

  lemma MixByteXor(x: bv8, y: bv8, all: bv8, p: bv8, q: bv8, rest: bv8)
    ensures MixByte(Xor(x, p), Xor(y, q), Xor(all, rest)) == Xor(MixByte(x, y, all), MixByte(p, q, rest))
  {
    hide Xor, Xtime;
    XorTwo(x, y, p, q);
    XtimeXor(Xor(x, y), Xor(p, q));
    XorTwo(Xtime(Xor(x, y)), all, Xtime(Xor(p, q)), rest);
    XorTwo(x, Xor(Xtime(Xor(x, y)), all), p, Xor(Xtime(Xor(p, q)), rest));
  }

  lemma MixXor(s: Column, t: Column)
    ensures Mix(Add(s, t)) == Add(Mix(s), Mix(t))
  {
    hide Xor, Xor4, MixByte;
    var all, rest := Xor4(s.a, s.b, s.c, s.d), Xor4(t.a, t.b, t.c, t.d);
    XorFour(s.a, s.b, s.c, s.d, t.a, t.b, t.c, t.d);
    MixByteXor(s.a, s.b, all, t.a, t.b, rest);
    MixByteXor(s.b, s.c, all, t.b, t.c, rest);
    MixByteXor(s.c, s.d, all, t.c, t.d, rest);
    MixByteXor(s.d, s.a, all, t.d, t.a, rest);
  }

  lemma InvMixByteXor(a: bv8, b: bv8, c: bv8, d: bv8, p: bv8, q: bv8, r: bv8, s: bv8)
    ensures InvMixByte(Xor(a, p), Xor(b, q), Xor(c, r), Xor(d, s)) == Xor(InvMixByte(a, b, c, d),
        InvMixByte(p, q, r, s))
  {
    hide Xor, Xor4, Multiply;
    MultiplyXor(a, p, 0x0e);
    MultiplyXor(b, q, 0x0b);
    MultiplyXor(c, r, 0x0d);
    MultiplyXor(d, s, 0x09);
    XorFour(Multiply(a, 0x0e), Multiply(b, 0x0b), Multiply(c, 0x0d), Multiply(d, 0x09),
            Multiply(p, 0x0e), Multiply(q, 0x0b), Multiply(r, 0x0d), Multiply(s, 0x09));
  }

  lemma InvMixXor(s: Column, t: Column)
    ensures InvMix(Add(s, t)) == Add(InvMix(s), InvMix(t))
  {
    hide Xor, InvMixByte;
    InvMixByteXor(s.a, s.b, s.c, s.d, t.a, t.b, t.c, t.d);
    InvMixByteXor(s.b, s.c, s.d, s.a, t.b, t.c, t.d, t.a);
    InvMixByteXor(s.c, s.d, s.a, s.b, t.c, t.d, t.a, t.b);
    InvMixByteXor(s.d, s.a, s.b, s.c, t.d, t.a, t.b, t.c);
  }

  // The products of the two matrices, one coefficient at a time.

  lemma Coefficient0(x: bv8)
    ensures InvMixByte(Xtime(x), x, x, Xor(x, Xtime(x))) == x
  {
  }

  lemma Coefficient1(x: bv8)
    ensures InvMixByte(x, x, Xor(x, Xtime(x)), Xtime(x)) == 0
  {
  }

  lemma Coefficient2(x: bv8)
    ensures InvMixByte(x, Xor(x, Xtime(x)), Xtime(x), x) == 0
  {
  }

  lemma Coefficient3(x: bv8)
    ensures InvMixByte(Xor(x, Xtime(x)), Xtime(x), x, x) == 0
  {
  }

  /** A column with one byte in it. */
  lemma MixBytes(x: bv8)
    ensures MixByte(x, 0, x) == Xtime(x) && MixByte(0, 0, x) == x && MixByte(0, x, x) == Xor(x, Xtime(x))
    ensures Xor4(x, 0, 0, 0) == Xor4(0, x, 0, 0) == Xor4(0, 0, x, 0) == Xor4(0, 0, 0, x) == x
  {
  }

  lemma MixInverseByte(x: bv8)
    ensures InvMix(Mix(Column(x, 0, 0, 0))) == Column(x, 0, 0, 0)
    ensures InvMix(Mix(Column(0, x, 0, 0))) == Column(0, x, 0, 0)
    ensures InvMix(Mix(Column(0, 0, x, 0))) == Column(0, 0, x, 0)
    ensures InvMix(Mix(Column(0, 0, 0, x))) == Column(0, 0, 0, x)
  {
    hide MixByte, InvMixByte, Xor, Xor4, Xtime;
    MixBytes(x);
    Coefficient0(x);
    Coefficient1(x);
    Coefficient2(x);
    Coefficient3(x);
  }

  lemma Bytes(s: Column)
    ensures Add(Add(Column(s.a, 0, 0, 0), Column(0, s.b, 0, 0)), Add(Column(0, 0, s.c, 0), Column(0, 0, 0, s.d))) == s
  {
  }

  /** InvMixColumns undoes MixColumns on every column. */
  lemma MixInverse(s: Column)
    ensures InvMix(Mix(s)) == s
  {
    hide Mix, InvMix, Add;
    var a, b, c, d := Column(s.a, 0, 0, 0), Column(0, s.b, 0, 0), Column(0, 0, s.c, 0), Column(0, 0, 0, s.d);
    MixXor(a, b);
    MixXor(c, d);
    MixXor(Add(a, b), Add(c, d));
    InvMixXor(Mix(a), Mix(b));
    InvMixXor(Mix(c), Mix(d));
    InvMixXor(Mix(Add(a, b)), Mix(Add(c, d)));
    MixInverseByte(s.a);
    MixInverseByte(s.b);
    MixInverseByte(s.c);
    MixInverseByte(s.d);
    Bytes(s);
  }

  // The block transformations.

  // Against FIPS 197.

  // Polynomials over GF(2), bit n of a word being the coefficient of degree n.

  function Plus(p: bv16, q: bv16): bv16 {
    p ^ q
  }

  /** x times the term of degree n of y. */
  function Term(x: bv8, y: bv8, n: bv4): bv16
    requires n < 8
  {
    if (y >> n) & 1 == 1 then (x as bv16) << n else 0
  }

  function Product(x: bv8, y: bv8): bv16 {
    Plus(Plus(Plus(Term(x, y, 0), Term(x, y, 1)), Plus(Term(x, y, 2), Term(x, y, 3))),
         Plus(Plus(Term(x, y, 4), Term(x, y, 5)), Plus(Term(x, y, 6), Term(x, y, 7))))
  }

  predicate Has(p: bv16, top: bv16) {
    p & top != 0
  }

  /** p, less the multiple m of the modulus if p has m's leading term. */
  function Cancel(p: bv16, top: bv16, m: bv16): bv16 {
    if Has(p, top) then Plus(p, m) else p
  }

  /** The remainder of a polynomial of degree below 15 by x^8 + x^4 + x^3 + x + 1, which is 0x11b: the
      long division, from the highest term down. */
  function Remainder(p: bv16): bv16 {
    var p6 := Cancel(p, 0x4000, 0x46c0);
    var p5 := Cancel(p6, 0x2000, 0x2360);
    var p4 := Cancel(p5, 0x1000, 0x11b0);
    var p3 := Cancel(p4, 0x800, 0x8d8);
    var p2 := Cancel(p3, 0x400, 0x46c);
    var p1 := Cancel(p2, 0x200, 0x236);
    Cancel(p1, 0x100, 0x11b)
  }

  function Byte(p: bv16): bv8 {
    (p & 0xff) as bv8
  }

  function Reduced(p: bv16): bv8 {
    Byte(Remainder(p))
  }

  /** Multiplication in GF(2^8), section 4.2: the product of the polynomials, modulo the modulus. */
  function GfMul(x: bv8, y: bv8): bv8 {
    Reduced(Product(x, y))
  }

  predicate TopBit(top: bv16) {
    top == 0x4000 || top == 0x2000 || top == 0x1000 || top == 0x800 || top == 0x400 || top == 0x200 || top == 0x100
  }

  lemma PlusAssoc(p: bv16, q: bv16, r: bv16)
    ensures Plus(Plus(p, q), r) == Plus(p, Plus(q, r))
  {
  }

  lemma PlusTurn(p: bv16, q: bv16)
    ensures Plus(p, q) == Plus(q, p)
  {
  }

  lemma PlusTwice(p: bv16, q: bv16)
    ensures Plus(p, Plus(p, q)) == q
  {
  }

  lemma HasPlus(p: bv16, q: bv16, top: bv16)
    requires TopBit(top)
    ensures Has(Plus(p, q), top) <==> Has(p, top) != Has(q, top)
  {
  }

  lemma PlusCancels(p: bv16, q: bv16, m: bv16)
    ensures Plus(Plus(p, m), Plus(q, m)) == Plus(p, q)
    ensures Plus(Plus(p, m), q) == Plus(Plus(p, q), m) == Plus(p, Plus(q, m))
  {
    hide Plus;
    PlusAssoc(p, m, q);
    PlusAssoc(p, q, m);
    PlusTurn(q, m);
    PlusAssoc(p, m, Plus(q, m));
    PlusTwice(m, q);
  }

  lemma CancelPlus(p: bv16, q: bv16, top: bv16, m: bv16)
    requires TopBit(top)
    ensures Cancel(Plus(p, q), top, m) == Plus(Cancel(p, top, m), Cancel(q, top, m))
  {
    hide Plus, Has;
    HasPlus(p, q, top);
    PlusCancels(p, q, m);
  }

  lemma RemainderPlus(p: bv16, q: bv16)
    ensures Remainder(Plus(p, q)) == Plus(Remainder(p), Remainder(q))
  {
    hide Cancel, Plus;
    var p6, q6 := Cancel(p, 0x4000, 0x46c0), Cancel(q, 0x4000, 0x46c0);
    var p5, q5 := Cancel(p6, 0x2000, 0x2360), Cancel(q6, 0x2000, 0x2360);
    var p4, q4 := Cancel(p5, 0x1000, 0x11b0), Cancel(q5, 0x1000, 0x11b0);
    var p3, q3 := Cancel(p4, 0x800, 0x8d8), Cancel(q4, 0x800, 0x8d8);
    var p2, q2 := Cancel(p3, 0x400, 0x46c), Cancel(q3, 0x400, 0x46c);
    var p1, q1 := Cancel(p2, 0x200, 0x236), Cancel(q2, 0x200, 0x236);
    CancelPlus(p, q, 0x4000, 0x46c0);
    CancelPlus(p6, q6, 0x2000, 0x2360);
    CancelPlus(p5, q5, 0x1000, 0x11b0);
    CancelPlus(p4, q4, 0x800, 0x8d8);
    CancelPlus(p3, q3, 0x400, 0x46c);
    CancelPlus(p2, q2, 0x200, 0x236);
    CancelPlus(p1, q1, 0x100, 0x11b);
  }

  lemma BytePlus(p: bv16, q: bv16)
    ensures Byte(Plus(p, q)) == Xor(Byte(p), Byte(q))
  {
  }

  lemma ReducedPlus(p: bv16, q: bv16)
    ensures Reduced(Plus(p, q)) == Xor(Reduced(p), Reduced(q))
  {
    hide Remainder, Plus, Byte, Xor;
    RemainderPlus(p, q);
    BytePlus(Remainder(p), Remainder(q));
  }

  lemma Unshifted(x: bv8)
    ensures Reduced(0) == 0 && Reduced(x as bv16) == x && Reduced((x as bv16) << 1) == Xtime(x)
  {
  }

  lemma ShiftedTwo(x: bv8)
    ensures Reduced((x as bv16) << 2) == Xtime(Xtime(x)) && Reduced((x as bv16) << 3) == Xtime(Xtime(Xtime(x)))
  {
  }

  lemma ShiftedFour(x: bv8)
    ensures Reduced((x as bv16) << 4) == Xtime(Xtime(Xtime(Xtime(x))))
  {
  }

  lemma ShiftedFive(x: bv8)
    ensures Reduced((x as bv16) << 5) == Xtime(Xtime(Xtime(Xtime(Xtime(x)))))
  {
  }

  lemma ShiftedSix(x: bv8)
    ensures Reduced((x as bv16) << 6) == Xtime(Xtime(Xtime(Xtime(Xtime(Xtime(x))))))
  {
  }

  lemma ShiftedSeven(x: bv8)
    ensures Reduced((x as bv16) << 7) == Xtime(Xtime(Xtime(Xtime(Xtime(Xtime(Xtime(x)))))))
  {
  }

  /** What the terms of y contribute to the product, as the code computes it. */
  lemma ByTerms(x: bv8, y: bv8)
    ensures var x2, x4, x8 := Xtime(x), Xtime(Xtime(x)), Xtime(Xtime(Xtime(x)));
      var x16, x32 := Xtime(x8), Xtime(Xtime(x8));
      GfMul(x, y) == Xor(Xor4(Bit(y, x), Bit(y >> 1, x2), Bit(y >> 2, x4), Bit(y >> 3, x8)),
                         Xor4(Bit(y >> 4, x16), Bit(y >> 5, x32), Bit(y >> 6, Xtime(x32)),
                             Bit(y >> 7, Xtime(Xtime(x32)))))
  {
    hide Reduced, Plus, Term, Xtime, Bit, Xor;
    var t0, t1, t2, t3 := Term(x, y, 0), Term(x, y, 1), Term(x, y, 2), Term(x, y, 3);
    var t4, t5, t6, t7 := Term(x, y, 4), Term(x, y, 5), Term(x, y, 6), Term(x, y, 7);
    Unshifted(x);
    ShiftedTwo(x);
    ShiftedFour(x);
    ShiftedFive(x);
    ShiftedSix(x);
    ShiftedSeven(x);
    AllTerms(x, y);
    ReducedPlus(t0, t1);
    ReducedPlus(t2, t3);
    ReducedPlus(t4, t5);
    ReducedPlus(t6, t7);
    ReducedPlus(Plus(t0, t1), Plus(t2, t3));
    ReducedPlus(Plus(t4, t5), Plus(t6, t7));
    ReducedPlus(Plus(Plus(t0, t1), Plus(t2, t3)), Plus(Plus(t4, t5), Plus(t6, t7)));
  }

  lemma AllTerms(x: bv8, y: bv8)
    ensures Reduced(Term(x, y, 0)) == Bit(y, Reduced(x as bv16))
    ensures Reduced(Term(x, y, 1)) == Bit(y >> 1, Reduced((x as bv16) << 1))
    ensures Reduced(Term(x, y, 2)) == Bit(y >> 2, Reduced((x as bv16) << 2))
    ensures Reduced(Term(x, y, 3)) == Bit(y >> 3, Reduced((x as bv16) << 3))
    ensures Reduced(Term(x, y, 4)) == Bit(y >> 4, Reduced((x as bv16) << 4))
    ensures Reduced(Term(x, y, 5)) == Bit(y >> 5, Reduced((x as bv16) << 5))
    ensures Reduced(Term(x, y, 6)) == Bit(y >> 6, Reduced((x as bv16) << 6))
    ensures Reduced(Term(x, y, 7)) == Bit(y >> 7, Reduced((x as bv16) << 7))
  {
    hide Reduced;
    Unshifted(x);
  }

  lemma BitsOf(y: bv8, v: bv8)
    ensures Bit(y & 0x0f, v) == Bit(y, v) && Bit((y & 0x0f) >> 1, v) == Bit(y >> 1, v)
    ensures Bit((y & 0x0f) >> 2, v) == Bit(y >> 2, v) && Bit((y & 0x0f) >> 3, v) == Bit(y >> 3, v)
    ensures Bit((y & 0x0f) >> 4, v) == 0 && Bit((y >> 4) >> 4, v) == 0
    ensures Bit((y >> 4) >> 1, v) == Bit(y >> 5, v)
    ensures Bit((y >> 4) >> 2, v) == Bit(y >> 6, v) && Bit((y >> 4) >> 3, v) == Bit(y >> 7, v)
    ensures y < 32 ==> Bit(y >> 5, v) == 0 && Bit(y >> 6, v) == 0 && Bit(y >> 7, v) == 0
  {
  }

  lemma XorNone(x: bv8)
    ensures Xor(x, 0) == x && Xor4(x, 0, 0, 0) == x
  {
  }

  /** Multiply is the product in the field for factors of five bits. */
  lemma MultiplyIs(x: bv8, y: bv8)
    requires y < 32
    ensures Multiply(x, y) == GfMul(x, y)
  {
    hide Xtime, Bit, Xor, Xor4, GfMul;
    var x32 := Xtime(Xtime(Xtime(Xtime(Xtime(x)))));
    ByTerms(x, y);
    BitsOf(y, x32);
    BitsOf(y, Xtime(x32));
    BitsOf(y, Xtime(Xtime(x32)));
    XorNone(Bit(y >> 4, Xtime(Xtime(Xtime(Xtime(x))))));
  }

  /** The product by halves of y. */
  function ByHalves(x: bv8, y: bv8): bv8 {
    Xor(Multiply(x, y & 0x0f), Multiply(Xtime(Xtime(Xtime(Xtime(x)))), y >> 4))
  }

  lemma HalvesAre(x: bv8, y: bv8)
    ensures GfMul(x, y) == ByHalves(x, y)
  {
    hide Xtime, Bit, Xor, Xor4, GfMul;
    var x2, x4, x8 := Xtime(x), Xtime(Xtime(x)), Xtime(Xtime(Xtime(x)));
    var x16, x32 := Xtime(x8), Xtime(Xtime(x8));
    ByTerms(x, y);
    BitsOf(y, x);
    BitsOf(y, x2);
    BitsOf(y, x4);
    BitsOf(y, x8);
    BitsOf(y, x16);
    BitsOf(y, x32);
    BitsOf(y, Xtime(x32));
    BitsOf(y, Xtime(Xtime(x32)));
    BitsOf(y, Xtime(Xtime(Xtime(x32))));
    XorNone(Xor4(Bit(y, x), Bit(y >> 1, x2), Bit(y >> 2, x4), Bit(y >> 3, x8)));
    XorNone(Xor4(Bit(y >> 4, x16), Bit(y >> 5, x32), Bit(y >> 6, Xtime(x32)), Bit(y >> 7, Xtime(Xtime(x32)))));
  }

  /** The inverse of the affine map of section 5.1.1. */
  function InvAffine(b: bv8): bv8 {
    b.RotateLeft(1) ^ b.RotateLeft(3) ^ b.RotateLeft(6) ^ 0x05
  }

  /** Entry x of sbox is the affine map of the multiplicative inverse of x, 0 standing for its own. */
  predicate InvertsAt(x: bv8) {
    if x == 0 then InvAffine(Sbox(x)) == 0 else GfMul(x, InvAffine(Sbox(x))) == 1
  }

  /** The same, with the product taken by halves. */
  predicate InvertsByHalves(x: bv8) {
    if x == 0 then InvAffine(Sbox(x)) == 0 else ByHalves(x, InvAffine(Sbox(x))) == 1
  }

  lemma SboxPart0(x: bv8)
    requires x < 0x40
    ensures InvertsByHalves(x)
  {
  }

  lemma SboxPart1(x: bv8)
    requires 0x40 <= x < 0x80
    ensures InvertsByHalves(x)
  {
  }

  lemma SboxPart2(x: bv8)
    requires 0x80 <= x < 0xc0
    ensures InvertsByHalves(x)
  {
  }

  lemma SboxPart3(x: bv8)
    requires 0xc0 <= x
    ensures InvertsByHalves(x)
  {
  }

  lemma SboxIs(x: bv8)
    ensures InvertsAt(x)
  {
    hide InvertsByHalves, GfMul, InvAffine, Sbox;
    SboxByHalves(x);
    HalvesAre(x, InvAffine(Sbox(x)));
    HalvesGive(x);
  }

  lemma HalvesGive(x: bv8)
    requires InvertsByHalves(x) && GfMul(x, InvAffine(Sbox(x))) == ByHalves(x, InvAffine(Sbox(x)))
    ensures InvertsAt(x)
  {
    hide GfMul, ByHalves, InvAffine, Sbox;
  }

  lemma SboxByHalves(x: bv8)
    ensures InvertsByHalves(x)
  {
    hide InvertsByHalves;
    if x < 0x40 {
      SboxPart0(x);
    } else if x < 0x80 {
      SboxPart1(x);
    } else if x < 0xc0 {
      SboxPart2(x);
    } else {
      SboxPart3(x);
    }
  }

  lemma TwoThree(x: bv8)
    ensures GfMul(x, 2) == Xtime(x) && GfMul(x, 3) == Xor(x, Xtime(x))
  {
    hide GfMul, Multiply, Xtime, Xor;
    MultiplyIs(x, 2);
    MultiplyIs(x, 3);
    MultiplyTwoThree(x);
  }

  lemma MultiplyTwoThree(x: bv8)
    ensures Multiply(x, 2) == Xtime(x) && Multiply(x, 3) == Xor(x, Xtime(x))
  {
  }

  /** Row i of the matrix of section 5.3.3 is 0e, 0b, 0d, 09 turned by i places. */
  lemma InvMixIs(s: Column)
    ensures InvMix(s).a == Xor4(GfMul(s.a, 0x0e), GfMul(s.b, 0x0b), GfMul(s.c, 0x0d), GfMul(s.d, 0x09))
    ensures InvMix(s).b == Xor4(GfMul(s.b, 0x0e), GfMul(s.c, 0x0b), GfMul(s.d, 0x0d), GfMul(s.a, 0x09))
    ensures InvMix(s).c == Xor4(GfMul(s.c, 0x0e), GfMul(s.d, 0x0b), GfMul(s.a, 0x0d), GfMul(s.b, 0x09))
    ensures InvMix(s).d == Xor4(GfMul(s.d, 0x0e), GfMul(s.a, 0x0b), GfMul(s.b, 0x0d), GfMul(s.c, 0x09))
  {
    hide Multiply, GfMul, Xor4;
    InvFactors(s.a);
    InvFactors(s.b);
    InvFactors(s.c);
    InvFactors(s.d);
  }

  lemma InvFactors(x: bv8)
    ensures Multiply(x, 0x0e) == GfMul(x, 0x0e) && Multiply(x, 0x0b) == GfMul(x, 0x0b)
    ensures Multiply(x, 0x0d) == GfMul(x, 0x0d) && Multiply(x, 0x09) == GfMul(x, 0x09)
  {
    hide Multiply, GfMul;
    MultiplyIs(x, 0x0e);
    MultiplyIs(x, 0x0b);
    MultiplyIs(x, 0x0d);
    MultiplyIs(x, 0x09);
  }

  lemma MixByteIs(x: bv8, y: bv8, z: bv8, w: bv8)
    ensures MixByte(x, y, Xor4(x, y, z, w)) == Xor4(Xtime(x), Xor(y, Xtime(y)), z, w)
  {
    hide Xtime;
    XtimeXor(x, y);
  }

  lemma Xor4Turn(x: bv8, y: bv8, z: bv8, w: bv8)
    ensures Xor4(x, y, z, w) == Xor4(y, z, w, x)
  {
  }

  /** Row i of the matrix of section 5.1.3 is 2, 3, 1, 1 turned by i places. */
  lemma MixIs(s: Column)
    ensures Mix(s).a == Xor4(GfMul(s.a, 2), GfMul(s.b, 3), s.c, s.d)
    ensures Mix(s).b == Xor4(GfMul(s.b, 2), GfMul(s.c, 3), s.d, s.a)
    ensures Mix(s).c == Xor4(GfMul(s.c, 2), GfMul(s.d, 3), s.a, s.b)
    ensures Mix(s).d == Xor4(GfMul(s.d, 2), GfMul(s.a, 3), s.b, s.c)
  {
    hide GfMul, Xtime, Xor, Xor4, MixByte;
    Xor4Turn(s.a, s.b, s.c, s.d);
    Xor4Turn(s.b, s.c, s.d, s.a);
    Xor4Turn(s.c, s.d, s.a, s.b);
    MixByteIs(s.a, s.b, s.c, s.d);
    MixByteIs(s.b, s.c, s.d, s.a);
    MixByteIs(s.c, s.d, s.a, s.b);
    MixByteIs(s.d, s.a, s.b, s.c);
    TwoThree(s.a);
    TwoThree(s.b);
    TwoThree(s.c);
    TwoThree(s.d);
  }

  // The whole state.

  function SubColumn(s: Column): Column {
    Column(Sbox(s.a), Sbox(s.b), Sbox(s.c), Sbox(s.d))
  }

  function InvSubColumn(s: Column): Column {
    Column(Rsbox(s.a), Rsbox(s.b), Rsbox(s.c), Rsbox(s.d))
  }

  function SubBytes(s: Block): Block {
    Block(SubColumn(s.c0), SubColumn(s.c1), SubColumn(s.c2), SubColumn(s.c3))
  }

  function InvSubBytes(s: Block): Block {
    Block(InvSubColumn(s.c0), InvSubColumn(s.c1), InvSubColumn(s.c2), InvSubColumn(s.c3))
  }

  /** Row r of the state, the r-th byte of every column, is rotated left by r columns. */
  function ShiftRows(s: Block): Block {
    Block(Column(s.c0.a, s.c1.b, s.c2.c, s.c3.d), Column(s.c1.a, s.c2.b, s.c3.c, s.c0.d),
          Column(s.c2.a, s.c3.b, s.c0.c, s.c1.d), Column(s.c3.a, s.c0.b, s.c1.c, s.c2.d))
  }

  function InvShiftRows(s: Block): Block {
    Block(Column(s.c0.a, s.c3.b, s.c2.c, s.c1.d), Column(s.c1.a, s.c0.b, s.c3.c, s.c2.d),
          Column(s.c2.a, s.c1.b, s.c0.c, s.c3.d), Column(s.c3.a, s.c2.b, s.c1.c, s.c0.d))
  }

  function MixColumns(s: Block): Block {
    Block(Mix(s.c0), Mix(s.c1), Mix(s.c2), Mix(s.c3))
  }

  function InvMixColumns(s: Block): Block {
    Block(InvMix(s.c0), InvMix(s.c1), InvMix(s.c2), InvMix(s.c3))
  }

  /** AddRoundKey, and XorWithIv. */
  function AddBlock(s: Block, k: Block): Block {
    Block(Add(s.c0, k.c0), Add(s.c1, k.c1), Add(s.c2, k.c2), Add(s.c3, k.c3))
  }

  lemma SubInverse(s: Block)
    ensures InvSubBytes(SubBytes(s)) == s
  {
    hide Sbox, Rsbox;
    SubColumnInverse(s.c0);
    SubColumnInverse(s.c1);
    SubColumnInverse(s.c2);
    SubColumnInverse(s.c3);
  }

  lemma SubColumnInverse(s: Column)
    ensures InvSubColumn(SubColumn(s)) == s
  {
    hide Sbox, Rsbox;
    SboxInverse(s.a);
    SboxInverse(s.b);
    SboxInverse(s.c);
    SboxInverse(s.d);
  }

  lemma MixColumnsInverse(s: Block)
    ensures InvMixColumns(MixColumns(s)) == s
  {
    hide Mix, InvMix;
    MixInverse(s.c0);
    MixInverse(s.c1);
    MixInverse(s.c2);
    MixInverse(s.c3);
  }

  lemma AddInverse(s: Column, k: Column)
    ensures Add(Add(s, k), k) == s
  {
  }

  lemma AddBlockInverse(s: Block, k: Block)
    ensures AddBlock(AddBlock(s, k), k) == s
  {
    hide Add;
    AddInverse(s.c0, k.c0);
    AddInverse(s.c1, k.c1);
    AddInverse(s.c2, k.c2);
    AddInverse(s.c3, k.c3);
  }

  // The cipher. The round keys are keys[0] to keys[Nr], Nr at least 1.

  /** The state after the first r rounds. */
  function Rounds(s: Block, keys: seq<Block>, r: nat): Block
    requires r < |keys|
    decreases r
  {
    if r == 0 then AddBlock(s, keys[0])
    else AddBlock(MixColumns(ShiftRows(SubBytes(Rounds(s, keys, r - 1)))), keys[r])
  }

  function CipherOf(s: Block, keys: seq<Block>): Block
    requires |keys| >= 2
  {
    AddBlock(ShiftRows(SubBytes(Rounds(s, keys, |keys| - 2))), keys[|keys| - 1])
  }

  /** The turns of InvCipher's loop from `round` down to 0. */
  function InvRounds(s: Block, keys: seq<Block>, round: nat): Block
    requires round < |keys|
    decreases round
  {
    var t := AddBlock(InvSubBytes(InvShiftRows(s)), keys[round]);
    if round == 0 then t else InvRounds(InvMixColumns(t), keys, round - 1)
  }

  function InvCipherOf(s: Block, keys: seq<Block>): Block
    requires |keys| >= 2
  {
    InvRounds(AddBlock(s, keys[|keys| - 1]), keys, |keys| - 2)
  }

  method Cipher(s: Block, keys: seq<Block>) returns (t: Block)
    requires |keys| >= 2
    ensures t == CipherOf(s, keys)
  {
    hide AddBlock, SubBytes, ShiftRows, MixColumns;
    var nr := |keys| - 1;
    t := AddBlock(s, keys[0]);
    var round := 1;
    while round < nr
      invariant 1 <= round <= nr && t == Rounds(s, keys, round - 1)
    {
      t := AddBlock(MixColumns(ShiftRows(SubBytes(t))), keys[round]);
      round := round + 1;
    }
    t := AddBlock(ShiftRows(SubBytes(t)), keys[nr]);
  }

  method InvCipher(s: Block, keys: seq<Block>) returns (t: Block)
    requires |keys| >= 2
    ensures t == InvCipherOf(s, keys)
  {
    hide AddBlock, InvSubBytes, InvShiftRows, InvMixColumns;
    t := AddBlock(s, keys[|keys| - 1]);
    var round := |keys| - 2;
    while round > 0
      invariant 0 <= round <= |keys| - 2 && InvRounds(t, keys, round) == InvCipherOf(s, keys)
    {
      t := InvMixColumns(AddBlock(InvSubBytes(InvShiftRows(t)), keys[round]));
      round := round - 1;
    }
    t := AddBlock(InvSubBytes(InvShiftRows(t)), keys[0]);
  }

  /** From the middle of round r + 1, InvCipher's loop goes back to the start. */
  lemma {:induction false} InvRoundsUndo(s: Block, keys: seq<Block>, r: nat)
    requires r < |keys|
    ensures InvRounds(ShiftRows(SubBytes(Rounds(s, keys, r))), keys, r) == s
  {
    hide AddBlock, SubBytes, InvSubBytes, MixColumns, InvMixColumns, ShiftRows, InvShiftRows;
    var e := Rounds(s, keys, r);
    ShiftInverse(SubBytes(e));
    SubInverse(e);
    if r == 0 {
      AddBlockInverse(s, keys[0]);
    } else {
      var m := ShiftRows(SubBytes(Rounds(s, keys, r - 1)));
      AddBlockInverse(MixColumns(m), keys[r]);
      MixColumnsInverse(m);
      InvRoundsUndo(s, keys, r - 1);
    }
  }

  lemma ShiftInverse(s: Block)
    ensures InvShiftRows(ShiftRows(s)) == s
  {
  }

  /** InvCipher undoes Cipher, whatever the round keys. */
  lemma CipherInverse(s: Block, keys: seq<Block>)
    requires |keys| >= 2
    ensures InvCipherOf(CipherOf(s, keys), keys) == s
  {
    hide AddBlock, SubBytes, ShiftRows, InvRounds, Rounds;
    AddBlockInverse(ShiftRows(SubBytes(Rounds(s, keys, |keys| - 2))), keys[|keys| - 1]);
    InvRoundsUndo(s, keys, |keys| - 2);
  }

  // CBC mode. A buffer is a sequence of whole blocks.

  function Encrypted(buf: seq<Block>, iv: Block, keys: seq<Block>): (out: seq<Block>)
    requires |keys| >= 2
    ensures |out| == |buf|
  {
    if buf == [] then [] else
    var c := CipherOf(AddBlock(buf[0], iv), keys);
    [c] + Encrypted(buf[1..], c, keys)
  }

  function Decrypted(buf: seq<Block>, iv: Block, keys: seq<Block>): (out: seq<Block>)
    requires |keys| >= 2
    ensures |out| == |buf|
  {
    if buf == [] then [] else [AddBlock(InvCipherOf(buf[0], keys), iv)] + Decrypted(buf[1..], buf[0], keys)
  }

  /** The chaining value after a ciphertext. */
  function NextIv(cipher: seq<Block>, iv: Block): Block {
    if cipher == [] then iv else cipher[|cipher| - 1]
  }

  /** Decrypting what was encrypted under the same starting value gives the buffer back. */
  lemma {:induction false} CbcRoundTrip(buf: seq<Block>, iv: Block, keys: seq<Block>)
    requires |keys| >= 2
    ensures Decrypted(Encrypted(buf, iv, keys), iv, keys) == buf
  {
    hide CipherOf, InvCipherOf, AddBlock;
    if buf != [] {
      var c := CipherOf(AddBlock(buf[0], iv), keys);
      CipherInverse(AddBlock(buf[0], iv), keys);
      AddBlockInverse(buf[0], iv);
      CbcRoundTrip(buf[1..], c, keys);
      assert Encrypted(buf, iv, keys)[1..] == Encrypted(buf[1..], c, keys);
    }
  }

  /** Encrypting in two calls, the second from the chaining value of the first, is encrypting in one. */
  lemma {:induction false} EncryptInTwo(a: seq<Block>, b: seq<Block>, iv: Block, keys: seq<Block>)
    requires |keys| >= 2
    ensures var first := Encrypted(a, iv, keys);
      Encrypted(a + b, iv, keys) == first + Encrypted(b, NextIv(first, iv), keys)
  {
    hide CipherOf, AddBlock;
    if a == [] {
      assert a + b == b;
    } else {
      var c := CipherOf(AddBlock(a[0], iv), keys);
      assert (a + b)[1..] == a[1..] + b;
      EncryptInTwo(a[1..], b, c, keys);
    }
  }

  lemma {:induction false} DecryptInTwo(a: seq<Block>, b: seq<Block>, iv: Block, keys: seq<Block>)
    requires |keys| >= 2
    ensures Decrypted(a + b, iv, keys) == Decrypted(a, iv, keys) + Decrypted(b, NextIv(a, iv), keys)
  {
    hide InvCipherOf, AddBlock;
    if a == [] {
      assert a + b == b;
    } else {
      assert (a + b)[1..] == a[1..] + b;
      DecryptInTwo(a[1..], b, a[0], keys);
    }
  }

  lemma DecryptNone(iv: Block, keys: seq<Block>)
    requires |keys| >= 2
    ensures Decrypted([], iv, keys) == [] && NextIv([], iv) == iv
  {
  }

  /** One block of the CBC loop. */
  lemma DecryptOne(cipher: seq<Block>, i: nat, iv: Block, iv0: Block, keys: seq<Block>)
    requires |keys| >= 2 && i < |cipher|
    ensures Decrypted(cipher[i..], iv,
        keys) == [AddBlock(InvCipherOf(cipher[i], keys), iv)] + Decrypted(cipher[i + 1..], cipher[i], keys)
    ensures NextIv(cipher[..i + 1], iv0) == cipher[i]
  {
    hide InvCipherOf, AddBlock;
    assert cipher[i..][1..] == cipher[i + 1..] && cipher[i..][0] == cipher[i];
  }

  // The key schedule, section 5.2 of FIPS 197, for keys of 256 bits.

  /** The words of a key, and the rounds of the cipher. */
  const NK: nat := 8
  const NR: nat := 14

  const RCON: seq<bv8> := [0x8d, 0x01, 0x02, 0x04, 0x08, 0x10, 0x20, 0x40, 0x80, 0x1b, 0x36]

  /** The n-th power of the polynomial x. */
  ghost function Power(n: nat): bv8 {
    if n == 0 then 1 else GfMul(Power(n - 1), 2)
  }

  /** Entry n of the table is the power n - 1. */
  lemma RconIs(n: nat)
    requires 1 <= n <= 10
    ensures RCON[n] == Power(n - 1)
  {
    hide GfMul;
    if n > 1 {
      RconIs(n - 1);
      TwoThree(RCON[n - 1]);
      RconStep(n);
    }
  }

  lemma RconStep(n: nat)
    requires 2 <= n <= 10
    ensures RCON[n] == Xtime(RCON[n - 1])
  {
  }

  function RotWord(s: Column): Column {
    Column(s.b, s.c, s.d, s.a)
  }

  /** What word i adds to the word NK places before it: every NK-th time the last word turned left by a byte,
      through the S-box, and with a power of x in its first byte; half-way between, the last word through the S-box. */
  ghost function Addend(w: seq<Column>, i: nat): Column
    requires NK <= i <= |w| && i < 80
  {
    var t := w[i - 1];
    if i % NK == 0 then Column(Xor(Sbox(t.b), Power(i / NK - 1)), Sbox(t.c), Sbox(t.d), Sbox(t.a))
    else if i % NK == 4 then Column(Sbox(t.a), Sbox(t.b), Sbox(t.c), Sbox(t.d))
    else t
  }

  /** w is the key schedule that starts with the given key. */
  ghost predicate Expands(key: seq<Column>, w: seq<Column>) {
    && |key| == NK <= |w| <= 80 && w[..NK] == key
    && forall i | NK <= i < |w| :: w[i] == Add(w[i - NK], Addend(w, i))
  }

  lemma XorCancels(x: bv8, y: bv8, z: bv8)
    requires Xor(x, z) == Xor(y, z)
    ensures x == y
  {
  }

  lemma AddCancels(s: Column, t: Column, u: Column)
    requires Add(s, u) == Add(t, u)
    ensures s == t
  {
    hide Xor;
    XorCancels(s.a, t.a, u.a);
    XorCancels(s.b, t.b, u.b);
    XorCancels(s.c, t.c, u.c);
    XorCancels(s.d, t.d, u.d);
  }

  /** Any NK words in a row determine the key: no two keys lead to the same ones. */
  lemma {:induction false} KeyDetermined(key: seq<Column>, w: seq<Column>, key': seq<Column>, w': seq<Column>, n: nat)
    requires Expands(key, w) && Expands(key', w') && n + NK <= |w| && n + NK <= |w'|
    requires forall k | n <= k < n + NK :: w[k] == w'[k]
    ensures key == key'
  {
    hide Add, Sbox, Xor, Power;
    if n == 0 {
      assert w[..NK] == w'[..NK];
    } else {
      AddCancels(w[n - 1], w'[n - 1], Addend(w, n - 1 + NK));
      KeyDetermined(key, w, key', w', n - 1);
    }
  }

  /** KeyExpansion, in place. */
  method KeyExpansion(roundKey: array<Column>, key: seq<Column>)
    requires |key| == NK && roundKey.Length == 4 * (NR + 1)
    modifies roundKey
    ensures Expands(key, roundKey[..])
  {
    hide Add, Power, Xor, Sbox;
    for i := 0 to NK
      invariant forall k | 0 <= k < i :: roundKey[k] == key[k]
    {
      roundKey[i] := key[i];
    }
    assert roundKey[..NK] == key;
    for i := NK to roundKey.Length
      invariant Expands(key, roundKey[..i])
    {
      ghost var w := roundKey[..i];
      var temp := roundKey[i - 1];
      if i % NK == 0 {
        temp := SubColumn(RotWord(temp));
        temp := temp.(a := Xor(temp.a, RCON[i / NK]));
        RconIs(i / NK);
      }
      if i % NK == 4 {
        temp := SubColumn(temp);
      }
      roundKey[i] := Add(roundKey[i - NK], temp);
      NextWord(key, w, roundKey[i]);
      assert roundKey[..i + 1] == w + [roundKey[i]];
    }
    assert roundKey[..roundKey.Length] == roundKey[..];
  }

  lemma NextWord(key: seq<Column>, w: seq<Column>, t: Column)
    requires Expands(key, w) && |w| < 80 && t == Add(w[|w| - NK], Addend(w, |w|))
    ensures Expands(key, w + [t])
  {
    hide Add, Sbox, Xor, Power;
    forall i | NK <= i < |w + [t]| ensures (w + [t])[i] == Add((w + [t])[i - NK], Addend(w + [t], i)) {
      assert Addend(w + [t], i) == Addend(w, i);
    }
    assert (w + [t])[..NK] == w[..NK];
  }

  /** Round key r is words 4 r to 4 r + 3. */
  function RoundKeys(w: seq<Column>): (keys: seq<Block>)
    ensures |keys| == |w| / 4
  {
    seq(|w| / 4, r requires 0 <= r < |w| / 4 => Block(w[4 * r], w[4 * r + 1], w[4 * r + 2], w[4 * r + 3]))
  }

  lemma EncryptNone(iv: Block, keys: seq<Block>)
    requires |keys| >= 2
    ensures Encrypted([], iv, keys) == [] && NextIv([], iv) == iv
  {
  }

  lemma EncryptOne(plain: seq<Block>, i: nat, iv: Block, keys: seq<Block>)
    requires i < |plain| && |keys| >= 2
    ensures var c := CipherOf(AddBlock(plain[i], iv), keys);
      Encrypted(plain[i..], iv, keys) == [c] + Encrypted(plain[i + 1..], c, keys)
  {
    hide CipherOf, AddBlock;
    assert plain[i..][1..] == plain[i + 1..] && plain[i..][0] == plain[i];
  }

  lemma LastIs(cipher: seq<Block>, c: Block, iv: Block)
    ensures NextIv(cipher + [c], iv) == c
  {
  }

  class Context {
    const keys: seq<Block>
    var iv: Block

    /** AES_init_ctx_iv. */
    constructor (key: seq<Column>, start: Block)
      requires |key| == NK
      ensures |keys| == NR + 1 && iv == start
      ensures exists w :: Expands(key, w) && keys == RoundKeys(w)
    {
      var roundKey := new Column[4 * (NR + 1)];
      KeyExpansion(roundKey, key);
      keys, iv := RoundKeys(roundKey[..]), start;
    }

    /** AES_CBC_encrypt_buffer, in place. */
    method EncryptBuffer(buf: array<Block>)
      requires |keys| >= 2
      modifies this, buf
      ensures buf[..] == Encrypted(old(buf[..]), old(iv), keys) && iv == NextIv(buf[..], old(iv))
    {
      hide CipherOf, AddBlock, Encrypted, NextIv;
      ghost var plain := buf[..];
      var prev := iv;
      var i := 0;
      EncryptNone(iv, keys);
      assert buf[..0] == [] && plain[0..] == plain;
      assert buf[..0] + Encrypted(plain, iv, keys) == Encrypted(plain, iv, keys);
      while i < buf.Length
        invariant 0 <= i <= buf.Length && iv == old(iv) && buf[i..] == plain[i..] && prev == NextIv(buf[..i], old(iv))
        invariant Encrypted(plain, old(iv), keys) == buf[..i] + Encrypted(plain[i..], prev, keys)
      {
        ghost var done := buf[..i];
        assert buf[i] == buf[i..][0] == plain[i];
        EncryptOne(plain, i, prev, keys);
        buf[i] := Cipher(AddBlock(buf[i], prev), keys);
        assert buf[..i + 1] == done + [buf[i]] && buf[i + 1..] == plain[i + 1..];
        LastIs(done, buf[i], old(iv));
        prev := buf[i];
        i := i + 1;
      }
      EncryptNone(prev, keys);
      assert buf[..i] + [] == buf[..] == buf[..i] && plain[i..] == [];
      iv := prev;
    }

    /** AES_CBC_decrypt_buffer, in place. */
    method DecryptBuffer(buf: array<Block>)
      requires |keys| >= 2
      modifies this, buf
      ensures buf[..] == Decrypted(old(buf[..]), old(iv), keys) && iv == NextIv(old(buf[..]), old(iv))
    {
      hide InvCipherOf, AddBlock, Decrypted, NextIv;
      ghost var cipher := buf[..];
      DecryptNone(old(iv), keys);
      assert cipher[..0] == [] && cipher[0..] == cipher &&
        buf[..0] + Decrypted(cipher, iv, keys) == Decrypted(cipher, iv, keys);
      var i := 0;
      while i < buf.Length
        invariant 0 <= i <= buf.Length && buf[i..] == cipher[i..] && iv == NextIv(cipher[..i], old(iv))
        invariant Decrypted(cipher, old(iv), keys) == buf[..i] + Decrypted(cipher[i..], iv, keys)
      {
        ghost var done := buf[..i];
        assert buf[i] == buf[i..][0] == cipher[i];
        var next := buf[i];
        var t := InvCipher(buf[i], keys);
        DecryptOne(cipher, i, iv, old(iv), keys);
        buf[i] := AddBlock(t, iv);
        assert buf[..i + 1] == done + [buf[i]] && buf[i + 1..] == cipher[i + 1..];
        iv := next;
        i := i + 1;
      }
      DecryptNone(iv, keys);
      assert buf[..i] + [] == buf[..] && cipher[i..] == [] && cipher[..i] == cipher;
    }
  }
}
