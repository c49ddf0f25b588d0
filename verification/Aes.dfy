/**
  AES as the modes use it: key set-up followed by one block operation, as block functions that
  undo each other for every key.
 */
module Aes {
  import opened Words
  import opened AesSpec
  import opened Rijndael
  import opened RijndaelKey
  import opened BlockCipher
  import KeyWrap

  predicate ValidKey(key: seq<byte>) { |key| == 16 || |key| == 24 || |key| == 32 }

  /** AES_ROUNDS of a key length in bytes. */
  function AesRounds(kl: nat): nat { kl * 8 / 32 + 6 }

  function Schedule(key: seq<byte>): (keys: seq<State>)
    requires ValidKey(key)
    ensures |keys| >= 2
  {
    KeySchedule(key, |key| / 4, AesRounds(|key|))
  }

  function Encrypt(key: seq<byte>, b: Block): Block
    requires ValidKey(key)
  {
    EncryptBlock(Schedule(key), b)
  }

  function Decrypt(key: seq<byte>, b: Block): Block
    requires ValidKey(key)
  {
    DecryptBlock(DecryptionKeys(Schedule(key)), b)
  }

  /** For every key and block, decryption undoes encryption and encryption undoes decryption. */
  lemma DecryptInvertsEncrypt(key: seq<byte>, b: Block)
    requires ValidKey(key)
    ensures Decrypt(key, Encrypt(key, b)) == b
    ensures Encrypt(key, Decrypt(key, b)) == b
  {
    hide Load, Store, Cipher, EqInvCipher, Schedule, DecryptionKeys;
    var keys := Schedule(key);
    CipherInverse(keys, Load(b));
    LoadStore(Cipher(keys, Load(b)), b);
    LoadStore(EqInvCipher(DecryptionKeys(keys), Load(b)), b);
  }

  /** The block function of a scheduled key. */
  function EncryptFn(key: seq<byte>): BlockFn
    requires ValidKey(key)
  {
    (b: Block) => Encrypt(key, b)
  }

  function DecryptFn(key: seq<byte>): BlockFn
    requires ValidKey(key)
  {
    (b: Block) => Decrypt(key, b)
  }

  /** AES is an instance of what the modes ask of a block cipher. */
  lemma AesIsInvertible(key: seq<byte>)
    requires ValidKey(key)
    ensures Inverses(EncryptFn(key), DecryptFn(key))
  {
    hide Encrypt, Decrypt;
    forall b: Block
      ensures DecryptFn(key)(EncryptFn(key)(b)) == b && EncryptFn(key)(DecryptFn(key)(b)) == b
    {
      DecryptInvertsEncrypt(key, b);
    }
  }

  method AesEncrypt(kl: nat, K: array<byte>, ptxt: array<byte>, ctxt: array<byte>)
    requires K.Length == kl && ValidKey(K[..]) && ptxt.Length == 16 && ctxt.Length == 16
    modifies ctxt
    ensures ctxt[..] == Encrypt(old(K[..]), old(ptxt[..]))
  {
    hide EncryptBlock, KeySchedule, Expanded;
    var rk := new word[60];
    var nr := RijndaelKeySetupEnc(rk, K, kl * 8);
    ExpandedKeys(rk, K[..], kl / 4, nr);
    RijndaelEncrypt(rk, AesRounds(kl), ptxt, ctxt);
  }

  method AesDecrypt(kl: nat, K: array<byte>, ctxt: array<byte>, ptxt: array<byte>)
    requires K.Length == kl && ValidKey(K[..]) && ptxt.Length == 16 && ctxt.Length == 16
    modifies ptxt
    ensures ptxt[..] == Decrypt(old(K[..]), old(ctxt[..]))
  {
    hide DecryptBlock, KeySchedule, DecryptionKeys, RoundKeys;
    var rk := new word[60];
    var nr := RijndaelKeySetupDec(rk, K, kl * 8);
    RijndaelDecrypt(rk, AesRounds(kl), ctxt, ptxt);
  }

  /** Key wrap with AES: unwrapping under a key-encryption key accepts exactly its wrappings. */
  lemma AesUnwrapIffWrapped(kek: seq<byte>, c: seq<byte>, p: seq<byte>)
    requires ValidKey(kek)
    requires |c| % 8 == 0 && |c| >= 8 && |p| % 8 == 0
    ensures KeyWrap.Unwrap(DecryptFn(kek), c) == Some(p) <==> c == KeyWrap.Wrap(EncryptFn(kek), p)
  {
    hide Encrypt, Decrypt, KeyWrap.Wrap, KeyWrap.Unwrap;
    AesIsInvertible(kek);
    KeyWrap.UnwrapIffWrapped(EncryptFn(kek), DecryptFn(kek), c, p);
  }
}
