/**
 The card of internal/icc with its pointers: subkeys that may be one object under
 two names, private keys decrypted in place, and locking by swapping a pointer.
 Every method refines the machine of module `LockMachine`.
 */
module CardObjects {
  import opened ByteStrings
  import opened LockMachine
  import opened DataObjects
  import EcdsaLayout
  import LockSteps
  import Tlv

  class PrivateKey {
    var fingerprint: Bytes
    var encrypted: bool
    var material: Option<Material>
    var sealed: Bytes

    /** The entity subkey this object belongs to. */
    ghost const slot: nat

    function Contents(): KeyValue
      reads this
    {
      KeyValue(fingerprint, encrypted, material, sealed)
    }

    constructor (v: KeyValue, ghost slot: nat)
      ensures Contents() == v && this.slot == slot
    {
      this.slot := slot;
      fingerprint, encrypted, material, sealed := v.fingerprint, v.encrypted, v.material, v.sealed;
    }

    /** The library's in-place decryption: nothing changes on failure. */
    method Decrypt(env: Env, passphrase: Bytes) returns (ok: bool)
      modifies this
      ensures ok == env.decrypt(old(Contents()), passphrase).Some?
      ensures Contents() == if ok then Opened(old(Contents()), env.decrypt(old(Contents()), passphrase).value)
                            else old(Contents())
    {
      match env.decrypt(Contents(), passphrase)
      case Some(m) =>
        encrypted, material := false, Some(m);
        ok := true;
      case None =>
        ok := false;
    }
  }

  class Subkey {
    const binding: Binding
    const publicKey: PublicKey
    var privateKey: PrivateKey?

    /** Its position in the entity, or -1 for a copy. */
    ghost const index: int

    constructor (b: Binding, p: PublicKey, k: PrivateKey?, ghost index: int)
      ensures binding == b && publicKey == p && privateKey == k && this.index == index
    {
      binding, publicKey, privateKey, this.index := b, p, k, index;
    }
  }

  /** A key pointer reaches the given value, or both are absent. */
  ghost predicate Reaches(p: PrivateKey?, v: Option<KeyValue>)
    reads p
  {
    if p == null then v.None? else v == Some(p.Contents())
  }

  /** A subkey at position `i` of the entity, and its key if it has one. */
  ghost predicate SubkeyOk(subkey: Subkey, i: nat, v: Option<KeyValue>, repr: set<object>)
    reads repr
  {
    && subkey in repr && subkey.index == i
    && (subkey.privateKey != null ==> subkey.privateKey in repr && subkey.privateKey.slot == i)
    && Reaches(subkey.privateKey, v)
  }

  /** The subkeys are separate objects of `repr`, with separate keys, that reach the values `live`. */
  ghost predicate KeysOk(subkeys: seq<Subkey>, live: seq<Option<KeyValue>>, repr: set<object>)
    reads repr
  {
    && |live| == |subkeys|
    && (forall i :: 0 <= i < |subkeys| ==> SubkeyOk(subkeys[i], i, live[i], repr))
  }

  /** The authentication copy: a further subkey whose key pointer is shared with its origin or with nobody. */
  ghost predicate CopyOk(copy: Subkey?, key: Option<KeyValue>, origin: Option<nat>, shared: bool,
                         subkeys: seq<Subkey>, repr: set<object>)
    reads repr, subkeys
  {
    if copy == null then origin.None? && key.None? && !shared
    else
      && copy in repr && copy.index == -1
      && origin.Some? && origin.value < |subkeys|
      && (copy.privateKey != null ==> copy.privateKey in repr && copy.privateKey.slot == origin.value)
      && Reaches(copy.privateKey, key)
      && (shared <==> copy.privateKey == subkeys[origin.value].privateKey)
      && (copy.privateKey == null ==> shared)
  }

  /** The library's packet reader: one new object for each subkey and each private key. */
  method ReadEntity(e: Entity) returns (subkeys: seq<Subkey>, ghost repr: set<object>)
    ensures KeysOk(subkeys, KeysOf(e), repr) && fresh(repr)
    ensures forall i :: 0 <= i < |e| ==> subkeys[i].binding == e[i].binding && subkeys[i].publicKey == e[i].public
  {
    subkeys, repr := [], {};
    for n := 0 to |e|
      invariant |subkeys| == n && fresh(repr)
      invariant forall i :: 0 <= i < n ==> SubkeyOk(subkeys[i], i, e[i].key, repr)
      invariant forall i :: 0 <= i < n ==> subkeys[i].binding == e[i].binding && subkeys[i].publicKey == e[i].public
    {
      var key: PrivateKey? := null;
      if e[n].key.Some? {
        key := new PrivateKey(e[n].key.value, n);
        repr := repr + {key};
      }
      var subkey := new Subkey(e[n].binding, e[n].public, key, n);
      repr := repr + {subkey};
      subkeys := subkeys + [subkey];
    }
  }

  /** The object a slot index stands for. */
  ghost predicate Names(p: Subkey?, subkeys: seq<Subkey>, id: Option<nat>)
  {
    if id.None? then p == null else id.value < |subkeys| && p == subkeys[id.value]
  }

  /** Each subkey has its public key, and the authentication copy that of its origin. */
  ghost predicate PublicsOk(subkeys: seq<Subkey>, copy: Subkey?, origin: Option<nat>, publics: seq<PublicKey>)
  {
    && |publics| == |subkeys|
    && (forall i :: 0 <= i < |subkeys| ==> subkeys[i].publicKey == publics[i])
    && (copy != null ==> origin.Some? && origin.value < |publics| && copy.publicKey == publics[origin.value])
  }

  /** The pointers of the card reach the keys `r`. */
  ghost predicate RingOk(subkeys: seq<Subkey>, sig: Subkey?, dec: Subkey?, aut: Subkey?, r: Ring, repr: set<object>)
    reads repr
  {
    && KeysOk(subkeys, r.live, repr)
    && Names(sig, subkeys, r.sig)
    && Names(dec, subkeys, r.dec)
    && (forall i :: 0 <= i < |subkeys| ==> subkeys[i] in repr)
    && CopyOk(aut, r.autKey, r.aut, r.autShared, subkeys, repr)
    && PublicsOk(subkeys, aut, r.aut, r.publics)
  }

  /** Decrypting the key of one subkey in place changes that value, and the copy's if the object is shared. */
  method DecryptAt(subkey: Subkey, env: Env, passphrase: Bytes, ghost id: nat, ghost r: Ring, ghost repr: set<object>,
                   ghost subkeys: seq<Subkey>, ghost sig: Subkey?, ghost dec: Subkey?, ghost aut: Subkey?)
    returns (ok: bool)
    requires RingOk(subkeys, sig, dec, aut, r, repr)
    requires id < |subkeys| && subkey == subkeys[id] && r.live[id].Some?
    modifies subkey.privateKey
    ensures ok == env.decrypt(r.live[id].value, passphrase).Some?
    ensures RingOk(subkeys, sig, dec, aut,
                   if ok then OpenKey(r, id, env.decrypt(r.live[id].value, passphrase).value) else r, repr)
  {
    ok := subkey.privateKey.Decrypt(env, passphrase);
  }

  ghost function ObjectsOf(key: PrivateKey?): set<object>
  {
    if key == null then {} else {key}
  }

  /** What a key pointer reaches. */
  ghost function Reached(key: PrivateKey?): Option<KeyValue>
    reads key
  {
    if key == null then None else Some(key.Contents())
  }

  /** Swapping the key pointer of one subkey for a new object, or nil, ends the sharing. */
  method SwapAt(subkey: Subkey, key: PrivateKey?, ghost id: nat, ghost r: Ring, ghost repr: set<object>,
                ghost subkeys: seq<Subkey>, ghost sig: Subkey?, ghost dec: Subkey?, ghost aut: Subkey?)
    requires RingOk(subkeys, sig, dec, aut, r, repr)
    requires id < |subkeys| && subkey == subkeys[id] && r.live[id].Some?
    requires key != null ==> key !in repr && key.slot == id
    modifies subkey
    ensures RingOk(subkeys, sig, dec, aut, SwapKey(r, id, Reached(key)), repr + ObjectsOf(key))
  {
    subkey.privateKey := key;
  }

  /** `decodeSubkeys`: the last subkey for each purpose; the third result is a copy of its subkey. */
  method DecodeSubkeys(subkeys: seq<Subkey>, ghost e: Entity) returns (sig: Subkey?, dec: Subkey?, aut: Subkey?)
    requires |subkeys| == |e| && forall i :: 0 <= i < |e| ==> subkeys[i].binding == e[i].binding
    ensures Names(sig, subkeys, LastIndex(e, ForSigning))
    ensures Names(dec, subkeys, LastIndex(e, ForDecryption))
    ensures aut == null <==> LastIndex(e, ForAuthentication).None?
    ensures aut != null ==> fresh(aut) && aut.index == -1
    ensures aut != null ==>
              var origin := subkeys[LastIndex(e, ForAuthentication).value];
              aut.privateKey == origin.privateKey && aut.publicKey == origin.publicKey
  {
    sig, dec, aut := null, null, null;
    for n := 0 to |subkeys|
      invariant Names(sig, subkeys, LastIndex(e[..n], ForSigning))
      invariant Names(dec, subkeys, LastIndex(e[..n], ForDecryption))
      invariant aut == null <==> LastIndex(e[..n], ForAuthentication).None?
      invariant aut != null ==> fresh(aut) && aut.index == -1
      invariant aut != null ==>
                  var origin := subkeys[LastIndex(e[..n], ForAuthentication).value];
                  aut.privateKey == origin.privateKey && aut.publicKey == origin.publicKey
    {
      LastIndexGrows(e, n, ForSigning);
      LastIndexGrows(e, n, ForDecryption);
      LastIndexGrows(e, n, ForAuthentication);
      var subkey := subkeys[n];
      if subkey.binding.Binding? && subkey.binding.valid {
        if subkey.binding.sign {
          sig := subkeys[n];
        }
        if subkey.binding.storage && subkey.binding.communications {
          dec := subkeys[n];
        }
        if subkey.binding.authenticate {
          aut := new Subkey(subkey.binding, subkey.publicKey, subkey.privateKey, -1);
        }
      }
    }
    assert e[..|e|] == e;
  }

  /** Reading an entity and choosing its subkeys: the objects behind a newly adopted state. */
  method DecodeEntity(e: Entity, ghost before: Caches)
    returns (subkeys: seq<Subkey>, sig: Subkey?, dec: Subkey?, aut: Subkey?, ghost repr: set<object>)
    ensures fresh(repr) && RingOk(subkeys, sig, dec, aut, RingOf(e, before), repr)
  {
    subkeys, repr := ReadEntity(e);
    sig, dec, aut := DecodeSubkeys(subkeys, e);
    if aut != null {
      ghost var i := LastIndex(e, ForAuthentication).value;
      assert SubkeyOk(subkeys[i], i, e[i].key, repr);
      repr := repr + {aut};
    }
  }

  /** The value a cache takes from a subkey: a copy of its private key, if it has one. */
  method CacheFrom(subkey: Subkey?, before: KeyValue) returns (k: KeyValue)
    ensures k == if subkey != null && subkey.privateKey != null then subkey.privateKey.Contents() else before
  {
    if subkey != null && subkey.privateKey != null {
      k := subkey.privateKey.Contents();
    } else {
      k := before;
    }
  }

  /** The caches taken from the chosen subkeys are the keys of the entity. */
  lemma CacheOfSlot(e: Entity, subkeys: seq<Subkey>, repr: set<object>, p: Subkey?, id: Option<nat>, before: KeyValue)
    requires KeysOk(subkeys, KeysOf(e), repr) && Names(p, subkeys, id)
    ensures CachedKey(e, id, before)
            == if p != null && p.privateKey != null then p.privateKey.Contents() else before
  {
    if id.Some? {
      assert SubkeyOk(subkeys[id.value], id.value, e[id.value].key, repr);
    }
  }

  lemma CacheOfCopy(e: Entity, subkeys: seq<Subkey>, repr: set<object>, p: Subkey?, id: Option<nat>, before: KeyValue)
    requires id.Some? ==> id.value < |e|
    requires CopyOk(p, if id.Some? then e[id.value].key else None, id, id.Some?, subkeys, repr)
    ensures CachedKey(e, id, before)
            == if p != null && p.privateKey != null then p.privateKey.Contents() else before
  {
  }

  /** Reading an entity and caching the private keys of the chosen subkeys by value. */
  method DecodeAndCache(e: Entity, before: Caches)
    returns (subkeys: seq<Subkey>, sig: Subkey?, dec: Subkey?, aut: Subkey?, caches: Caches, ghost repr: set<object>)
    ensures fresh(repr) && RingOk(subkeys, sig, dec, aut, RingOf(e, before), repr)
    ensures caches == RingOf(e, before).caches
  {
    subkeys, sig, dec, aut, repr := DecodeEntity(e, before);
    CacheOfSlot(e, subkeys, repr, sig, LastIndex(e, ForSigning), before.sig);
    CacheOfSlot(e, subkeys, repr, dec, LastIndex(e, ForDecryption), before.dec);
    CacheOfCopy(e, subkeys, repr, aut, LastIndex(e, ForAuthentication), before.aut);
    var s := CacheFrom(sig, before.sig);
    var d := CacheFrom(dec, before.dec);
    var a := CacheFrom(aut, before.aut);
    caches := Caches(s, d, a);
  }

  class Card {
    const env: Env
    var armoredKey: Bytes
    var subkeys: seq<Subkey>
    var Sig: Subkey?
    var Dec: Subkey?
    var Aut: Subkey?
    var sig: KeyValue
    var dec: KeyValue
    var aut: KeyValue
    var errorCounterPW1: byte
    var digitalSignatureCounter: nat
    var selected: bool
    var initialized: bool
    var crashed: bool
    var blue: bool
    var white: bool

    /** The abstract state and the objects of the card. */
    ghost var S: State
    ghost var Repr: set<object>

    /** The plain fields agree with the abstract state `t`. */
    ghost predicate Agrees(t: State)
      reads this
    {
      && Caches(sig, dec, aut) == t.ring.caches
      && armoredKey == t.armored
      && initialized == t.initialized
      && selected == t.selected
      && crashed == t.crashed
      && errorCounterPW1 == t.retries
      && digitalSignatureCounter == t.signatures
      && blue == t.blue
    }

    /** The heap behind the abstract state `t`. */
    ghost predicate Backs(t: State)
      reads this, Repr
    {
      this !in Repr && RingOk(subkeys, Sig, Dec, Aut, t.ring, Repr) && Agrees(t)
    }

    ghost predicate Shape()
      reads this, Repr
    {
      Backs(S)
    }

    /** Recording that the abstract state has moved on. */
    ghost method Settle(t: State)
      requires Backs(t)
      modifies this`S
      ensures S == t && Shape()
    {
      S := t;
    }

    /** At command boundaries the white LED agrees too. */
    ghost predicate Valid()
      reads this, Repr
    {
      Shape() && white == S.white
    }

    /** Recording an event. */
    ghost method Record(e: Event)
      requires Shape()
      modifies this`S
      ensures S == Note(old(S), e) && Shape()
    {
      S := Note(S, e);
    }

    /** A run-time panic. */
    method Panic()
      requires Shape()
      modifies this`crashed, this`S
      ensures S == old(S).(crashed := true) && Shape()
    {
      crashed := true;
      S := S.(crashed := true);
    }

    method SetRetries(n: byte, ghost t: State)
      requires Backs(t)
      modifies this`errorCounterPW1
      ensures Backs(t.(retries := n))
    {
      errorCounterPW1 := n;
    }

    /** The white LED is no part of the shape. */
    method SetWhite(b: bool)
      requires Shape()
      modifies this`white
      ensures white == b && Shape()
    {
      white := b;
    }

    ghost method Dim()
      requires Shape()
      modifies this`S
      ensures S == old(S).(white := false) && Shape()
    {
      S := S.(white := false);
    }

    method SetSelected(b: bool)
      requires Shape()
      modifies this`selected, this`S
      ensures S == old(S).(selected := b) && Shape()
    {
      selected := b;
      S := S.(selected := b);
    }

    method SetBlue(b: bool)
      requires Shape()
      modifies this`blue, this`S
      ensures S == old(S).(blue := b) && Shape()
    {
      blue := b;
      S := S.(blue := b);
    }

    constructor (env: Env, armored: Bytes, blue: bool, white: bool)
      ensures Valid() && Repr == {}
      ensures this.env == env && S == Start(armored, blue, white)
    {
      this.env := env;
      armoredKey, subkeys, Sig, Dec, Aut := armored, [], null, null, null;
      sig, dec, aut := ZERO_KEY, ZERO_KEY, ZERO_KEY;
      errorCounterPW1, digitalSignatureCounter := 0, 0;
      selected, initialized, crashed := false, false, false;
      this.blue, this.white := blue, white;
      S := Start(armored, blue, white);
      Repr := {};
    }

    /** Whether the signature or the decryption key holds unencrypted material. */
    method AnyUnlocked() returns (lit: bool)
      requires Shape()
      ensures lit == Lit(S)
    {
      var slots := [Sig, Dec];
      lit := false;
      for n := 0 to 2
        invariant lit <==> (n > 0 && Glows(S, S.ring.sig)) || (n > 1 && Glows(S, S.ring.dec))
      {
        var subkey := slots[n];
        if subkey != null && subkey.privateKey != null && subkey.privateKey.material.Some? && !subkey.privateKey.encrypted {
          lit := true;
        }
      }
    }

    /** `signalVerificationStatus`. */
    method SignalVerificationStatus()
      requires Shape()
      modifies this`blue, this`S
      ensures S == Signal(old(S)) && Shape()
    {
      var lit := AnyUnlocked();
      SetBlue(lit);
    }

    /** `Restore`: a new copy of the first cached key with the subkey's fingerprint. */
    method Restore(subkey: Subkey?) returns (r: PrivateKey?)
      ensures subkey == null || subkey.privateKey == null ==> r == null
      ensures subkey != null && subkey.privateKey != null ==>
                var found := FirstMatch(Caches(sig, dec, aut), subkey.privateKey.fingerprint);
                (r == null <==> found.None?) && (r != null ==> r.Contents() == found.value && r.slot == subkey.privateKey.slot)
      ensures r != null ==> fresh(r)
    {
      if subkey == null || subkey.privateKey == null {
        return null;
      }
      var caches := [sig, dec, aut];
      for n := 0 to 3
        invariant n > 0 ==> sig.fingerprint != subkey.privateKey.fingerprint
        invariant n > 1 ==> dec.fingerprint != subkey.privateKey.fingerprint
        invariant n > 2 ==> aut.fingerprint != subkey.privateKey.fingerprint
      {
        if caches[n].fingerprint == subkey.privateKey.fingerprint {
          r := new PrivateKey(caches[n], subkey.privateKey.slot);
          return r;
        }
      }
      return null;
    }

    /** The state after a decryption, before the retry counter is reset. */
    ghost function Decrypting(t: State, id: nat, passphrase: Bytes): State
      requires HasKey(t, Some(id)) && env.decrypt(KeyAt(t, id), passphrase).Some?
    {
      Unlock(t, id, env.decrypt(KeyAt(t, id), passphrase).value).(retries := t.retries)
    }

    /** Decrypting in place through a slot. */
    method Decrypt(subkey: Subkey, ghost id: nat, passphrase: Bytes) returns (ok: bool)
      requires Shape() && HasKey(S, Some(id)) && Names(subkey, subkeys, Some(id))
      modifies Repr
      ensures ok == env.decrypt(KeyAt(S, id), passphrase).Some?
      ensures Backs(if ok then Decrypting(S, id, passphrase) else S)
    {
      ok := DecryptAt(subkey, env, passphrase, id, S.ring, Repr, subkeys, Sig, Dec, Aut);
    }

    /** A passphrase attempt, with the retry counter. */
    method Attempt(subkey: Subkey, ghost id: nat, passphrase: Bytes) returns (ok: bool)
      requires Shape() && HasKey(S, Some(id)) && Names(subkey, subkeys, Some(id)) && errorCounterPW1 > 0
      modifies this`errorCounterPW1, this`S, Repr
      ensures Shape()
      ensures var m := env.decrypt(KeyAt(old(S), id), passphrase);
              && ok == m.Some?
              && S == if m.Some? then Unlock(old(S), id, m.value) else Refuse(old(S), id)
    {
      ok := Decrypt(subkey, id, passphrase);
      if ok {
        SetRetries(DEFAULT_PW1_ERROR_COUNTER, Decrypting(S, id, passphrase));
        Settle(Unlock(S, id, env.decrypt(KeyAt(S, id), passphrase).value));
      } else {
        CountRefusal(id);
      }
    }

    method CountRefusal(ghost id: nat)
      requires Shape() && errorCounterPW1 > 0
      modifies this`errorCounterPW1, this`S
      ensures Shape() && S == Refuse(old(S), id)
    {
      SetRetries(errorCounterPW1 - 1, S);
      Settle(S.(retries := S.retries - 1));
      Record(Refused(id));
    }

    /** The subkey of a slot with a key. */
    lemma SlotKey(subkey: Subkey, id: nat)
      requires Shape() && HasKey(S, Some(id)) && Names(subkey, subkeys, Some(id))
      ensures subkey.privateKey != null && subkey.privateKey in Repr
      ensures subkey.privateKey.Contents() == KeyAt(S, id) && subkey.privateKey.slot == id
    {
      assert SubkeyOk(subkeys[id], id, S.ring.live[id], Repr);
    }

    /** Replacing the key pointer of a subkey, and reading through it. */
    method Swap(subkey: Subkey, key: PrivateKey?, ghost id: nat)
      requires Shape() && HasKey(S, Some(id)) && Names(subkey, subkeys, Some(id))
      requires key != null ==> key !in Repr && key.slot == id
      modifies this`crashed, this`Repr, Repr
      ensures Repr == old(Repr) + ObjectsOf(key)
      ensures Backs(Swapped(S, id, Reached(key)))
    {
      SwapAt(subkey, key, id, S.ring, Repr, subkeys, Sig, Dec, Aut);
      Repr := Repr + ObjectsOf(key);
      if key == null {
        crashed := true;
      }
    }

    /** Locking: the subkey's pointer is replaced by a fresh copy of its cached key. */
    method Relock(subkey: Subkey, ghost id: nat)
      requires Shape() && HasKey(S, Some(id)) && Names(subkey, subkeys, Some(id))
      modifies this`crashed, this`S, this`Repr, Repr
      ensures Shape() && fresh(Repr - old(Repr))
      ensures S == LockMachine.Restore(old(S), id)
    {
      SlotKey(subkey, id);
      var key := Restore(subkey);
      assert Reached(key) == FirstMatch(S.ring.caches, KeyAt(S, id).fingerprint);
      Swap(subkey, key, id);
      Settle(LockMachine.Restore(S, id));
    }

    /** The subkey that a password reference stands for. */
    method Referenced(p2: byte) returns (subkey: Subkey?, ghost id: Option<nat>)
      requires Shape()
      ensures id == SlotOf(S, p2) && Names(subkey, subkeys, id)
      ensures HasKey(S, id) <==> subkey != null && subkey.privateKey != null
      ensures HasKey(S, id) ==> subkey.privateKey.Contents() == KeyAt(S, id.value) && subkey.index == id.value
    {
      subkey, id := null, SlotOf(S, p2);
      if p2 == PW1_CDS {
        subkey := Sig;
      } else if p2 == PW1 {
        subkey := Dec;
      }
    }

    /** The VERIFY mode of the command: status, or a passphrase attempt. */
    method TryUnlock(subkey: Subkey, ghost id: nat, passphrase: Bytes) returns (reply: Reply)
      requires Shape() && HasKey(S, Some(id)) && Names(subkey, subkeys, Some(id))
      modifies this`errorCounterPW1, this`S, Repr
      ensures Shape()
      ensures Outcome(S, reply) == LockMachine.TryUnlock(env, old(S), id, passphrase)
    {
      SlotKey(subkey, id);
      if |passphrase| == 0 {
        if !subkey.privateKey.encrypted {
          reply := Completed([]);
        } else {
          reply := VerifyFail(errorCounterPW1);
        }
      } else if !subkey.privateKey.encrypted {
        reply := Completed([]);
      } else if errorCounterPW1 == 0 {
        reply := VerifyFail(errorCounterPW1);
      } else {
        var ok := Attempt(subkey, id, passphrase);
        reply := if ok then Completed([]) else VerifyFail(errorCounterPW1);
      }
    }

    /** VERIFY before its deferred signal. */
    method VerifyCore(p1: byte, p2: byte, passphrase: Bytes) returns (reply: Reply)
      requires Shape()
      modifies this`crashed, this`errorCounterPW1, this`S, this`Repr, Repr
      ensures Shape() && fresh(Repr - old(Repr))
      ensures Outcome(S, reply) == LockMachine.VerifyCore(env, old(S), p1, p2, passphrase)
    {
      var subkey, id := Referenced(p2);
      if subkey == null || subkey.privateKey == null {
        return NotAllowed;
      }
      if p1 == PW_VERIFY {
        reply := TryUnlock(subkey, id.value, passphrase);
      } else if p1 == PW_LOCK {
        if !subkey.privateKey.encrypted {
          Relock(subkey, id.value);
        }
        reply := Completed([]);
      } else {
        reply := NotAllowed;
      }
    }

    method Verify(p1: byte, p2: byte, passphrase: Bytes) returns (reply: Reply)
      requires Shape()
      modifies this`crashed, this`errorCounterPW1, this`S, this`Repr, this`blue, Repr
      ensures Shape() && fresh(Repr - old(Repr))
      ensures Outcome(S, reply) == LockMachine.Verify(env, old(S), p1, p2, passphrase)
    {
      reply := VerifyCore(p1, p2, passphrase);
      SignalVerificationStatus();
    }

    /** The signature itself, or the reply that replaces it. */
    method MakeSignature(key: PrivateKey, data: Bytes, o: Oracle) returns (a: LockMachine.Attempt)
      ensures a == SignWith(key.Contents(), data, o)
    {
      if key.material.None? {
        return Failed(KEY_NOT_SUPPORTED);
      }
      match key.material.value.kind {
        case RsaKey =>
          if |data| < 19 + 32 {
            return Failed(WRONG_DATA);
          }
          var digest := data[19..];
          var hash: Hash;
          if |digest| == 32 {
            hash := Sha256;
          } else if |digest| == 48 {
            hash := Sha384;
          } else if |digest| == 64 {
            hash := Sha512;
          } else {
            return Failed(WRONG_DATA);
          }
          var sig := o.signRsa(key.material.value, hash, digest);
          return if sig.None? then Failed(UNRECOVERABLE) else Made(sig.value);
        case PgpEcdsaKey =>
          var rs := o.signEcdsa(key.material.value, data);
          if rs.None? {
            return Failed(UNRECOVERABLE);
          }
          var sig := EcdsaLayout.PadToKeySize(o.xBits, EcdsaLayout.MinimalBytes(rs.value.0));
          sig := sig + EcdsaLayout.PadToKeySize(o.xBits, EcdsaLayout.MinimalBytes(rs.value.1));
          return Made(sig);
        case _ =>
          return Failed(KEY_NOT_SUPPORTED);
      }
    }

    /** The signature and its counter. */
    method Sign(key: PrivateKey, ghost id: nat, data: Bytes, o: Oracle) returns (reply: Reply)
      requires Shape()
      modifies this`digitalSignatureCounter, this`S
      ensures Shape()
      ensures match SignWith(key.Contents(), data, o)
              case Made(sig) => S == CountSignature(old(S), id) && reply == Completed(sig)
              case Failed(r) => S == old(S) && reply == r
    {
      var a := MakeSignature(key, data, o);
      if a.Failed? {
        return a.reply;
      }
      digitalSignatureCounter := (digitalSignatureCounter + 1) % 0x1_0000_0000;
      Settle(CountSignature(S, id));
      return Completed(a.sig);
    }

    /** The guarded part of PSO:CDS: sign, then lock whatever the outcome. */
    method SignAndLock(key: PrivateKey, ghost id: nat, data: Bytes, o: Oracle) returns (reply: Reply)
      requires Shape()
      modifies this`crashed, this`digitalSignatureCounter, this`errorCounterPW1, this`S, this`Repr, this`blue, Repr
      ensures Shape() && fresh(Repr - old(Repr))
      ensures match SignWith(old(key.Contents()), data, o)
              case Made(sig) => S == Lock(env, CountSignature(old(S), id), PW1_CDS) && reply == Completed(sig)
              case Failed(r) => S == Lock(env, old(S), PW1_CDS) && reply == r
    {
      reply := Sign(key, id, data, o);
      var _ := Verify(PW_LOCK, PW1_CDS, []);
    }

    /** PSO:CDS; once the key is known to be unlocked, every way out locks it again. */
    method ComputeDigitalSignature(data: Bytes, o: Oracle) returns (reply: Reply)
      requires Shape()
      modifies this`crashed, this`digitalSignatureCounter, this`errorCounterPW1, this`S, this`Repr, this`blue, Repr
      ensures Shape() && fresh(Repr - old(Repr))
      ensures Outcome(S, reply) == LockMachine.ComputeDigitalSignature(env, old(S), data, o)
    {
      if |data| == 0 {
        return WRONG_DATA;
      }
      var subkey, id := Referenced(PW1_CDS);
      if subkey == null || subkey.privateKey == null {
        return KEY_NOT_SUPPORTED;
      }
      if subkey.privateKey.encrypted {
        return SECURITY_CONDITION;
      }
      reply := SignAndLock(subkey.privateKey, id.value, data, o);
    }

    /** PSO:DECIPHER; the nested objects are decoded step by step. */
    method Decipher(data: Bytes, o: Oracle) returns (reply: Reply)
      requires Shape()
      modifies this`crashed, this`S
      ensures Shape()
      ensures Outcome(S, reply) == LockMachine.Decipher(old(S), data, o)
    {
      if |data| < 1 {
        return WRONG_DATA;
      }
      if data[0] == AES_PADDING {
        reply := AesCbc(true, data[1..], o);
      } else {
        reply := DecipherWithKey(data, o);
      }
    }

    method DecipherWithKey(data: Bytes, o: Oracle) returns (reply: Reply)
      requires Shape() && |data| >= 1
      modifies this`crashed, this`S
      ensures Shape()
      ensures Outcome(S, reply) == LockMachine.DecipherWithKey(old(S), data, o)
    {
      var subkey, id := Referenced(PW1);
      if subkey == null || subkey.privateKey == null {
        return KEY_NOT_SUPPORTED;
      }
      if subkey.privateKey.encrypted {
        return SECURITY_CONDITION;
      }
      reply := DecipherUnlocked(subkey.privateKey, data, o);
    }

    method DecipherUnlocked(key: PrivateKey, data: Bytes, o: Oracle) returns (reply: Reply)
      requires Shape() && |data| >= 1
      modifies this`crashed, this`S
      ensures Shape()
      ensures reply == DecipherReply(old(key.Contents()), data, o)
      ensures S == if reply.Panicked? then old(S).(crashed := true) else old(S)
    {
      reply := DecipherWith(key, data, o);
      if reply.Panicked? {
        Panic();
      }
    }

    /** `aesCBC` with the device key. */
    method AesCbc(decrypting: bool, data: Bytes, o: Oracle) returns (reply: Reply)
      ensures reply == AesReply(decrypting, data, o)
    {
      if o.aes.NoEngine? {
        return Erred;
      }
      if o.aes.NoDeviceKey? {
        return NotAllowed;
      }
      if |data| % 16 != 0 {
        return WRONG_DATA;
      }
      if o.aes.CipherError? {
        return Erred;
      }
      return Completed(if decrypting then o.aes.decrypt(data) else o.aes.encrypt(data));
    }

    method DecipherWith(key: PrivateKey, data: Bytes, o: Oracle) returns (reply: Reply)
      requires |data| >= 1
      ensures reply == DecipherReply(key.Contents(), data, o)
    {
      if key.material.None? {
        return KEY_NOT_SUPPORTED;
      }
      match key.material.value.kind {
        case RsaKey =>
          if data[0] != RSA_PADDING {
            return KEY_NOT_SUPPORTED;
          }
          var plaintext := o.decryptRsa(key.material.value, data[1..]);
          return if plaintext.Some? then Completed(plaintext.value) else UNRECOVERABLE;
        case EcdhKey =>
          if data[0] != Tlv.DO_CIPHER {
            return KEY_NOT_SUPPORTED;
          }
          var cipher := Tlv.Parse(data, Tlv.DO_CIPHER);
          if cipher.Panics? {
            return Panicked;
          }
          var outer := Tlv.Parse(cipher.value, Tlv.DO_PUB_KEY);
          if outer.Panics? {
            return Panicked;
          }
          var point := Tlv.Parse(outer.value, Tlv.DO_EXT_PUB_KEY);
          if point.Panics? {
            return Panicked;
          }
          var pubKey := point.value;
          if |pubKey| < 1 || pubKey[0] != 0x04 || (|pubKey| - 1) / 2 * 2 != |pubKey| - 1 {
            return WRONG_DATA;
          }
          var secret, expected := o.decaps(key.material.value, pubKey), (|pubKey| - 1) / 2;
          if secret.None? {
            return UNRECOVERABLE;
          }
          if |secret.value| > expected {
            return Panicked;
          }
          return Completed(Zeros(expected - |secret.value|) + secret.value);
        case _ =>
          return KEY_NOT_SUPPORTED;
      }
    }

    /** PSO:ENCIPHER. */
    method Encipher(data: Bytes, o: Oracle) returns (reply: Reply)
      requires Shape()
      modifies this`crashed, this`S
      ensures Shape()
      ensures Outcome(S, reply) == LockMachine.Encipher(old(S), data, o)
    {
      var subkey, id := Referenced(PW1);
      if subkey == null || subkey.privateKey == null {
        // a nil pointer is dereferenced
        Panic();
        return Panicked;
      }
      if subkey.privateKey.encrypted {
        return SECURITY_CONDITION;
      }
      reply := AesCbc(false, data, o);
    }

    /** VERIFY for several password references in turn. */
    method VerifyEach(p1: byte, pws: seq<byte>, passphrase: Bytes)
      requires Shape()
      modifies this`crashed, this`errorCounterPW1, this`S, this`Repr, this`blue, Repr
      ensures Shape() && fresh(Repr - old(Repr))
      ensures S == LockMachine.VerifyEach(env, old(S), p1, pws, passphrase)
    {
      for n := 0 to |pws|
        invariant Shape() && fresh(Repr - old(Repr))
        invariant S == LockMachine.VerifyEach(env, old(S), p1, pws[..n], passphrase)
      {
        assert pws[..n + 1][..n] == pws[..n];
        var _ := Verify(p1, pws[n], passphrase);
      }
      assert pws[..|pws|] == pws;
    }

    /** SELECT. */
    method Select(file: Bytes) returns (reply: Reply)
      requires Shape()
      modifies this`crashed, this`selected, this`errorCounterPW1, this`S, this`Repr, this`blue, Repr
      ensures Shape() && fresh(Repr - old(Repr))
      ensures Outcome(S, reply) == LockMachine.Select(env, old(S), file)
    {
      reply := FileNotFound;
      if file == RID || file == Aid(env.serial) {
        reply := Completed([]);
        SetSelected(true);
      } else if selected {
        VerifyEach(PW_LOCK, EVERY_PW, []);
        SetSelected(false);
      }
    }

    /** The three counter bytes; a counter they cannot hold starts over. */
    method DigitalSignatureCounter() returns (b: Bytes)
      requires Shape()
      modifies this`digitalSignatureCounter, this`S
      ensures Shape()
      ensures S == ReadCounter(old(S)) && b == ThreeBytes(S.signatures)
    {
      if digitalSignatureCounter > 0xffffff {
        digitalSignatureCounter := 0;
        Settle(S.(signatures := 0));
      }
      b := ThreeBytes(digitalSignatureCounter);
    }

    /** GET DATA. */
    method GetData(tag: nat, o: Oracle) returns (reply: Reply)
      requires Shape()
      modifies this`digitalSignatureCounter, this`S
      ensures Shape()
      ensures Outcome(S, reply) == LockMachine.GetData(env, old(S), tag, o)
    {
      if tag == DO_SECURITY_SUPPORT_TEMPLATE {
        var counter := DigitalSignatureCounter();
        var data := Tlv.Print(DO_DIGITAL_SIGNATURE_COUNTER, counter);
        var body := Tlv.Print(DO_SECURITY_SUPPORT_TEMPLATE, data);
        return Completed(body);
      }
      reply :=
        if tag == DO_APPLICATION_IDENTIFIER then Completed(Aid(env.serial))
        else if tag == DO_LOGIN_DATA then Completed(o.fields.loginData)
        else if tag == DO_URL then Completed(o.fields.url)
        else if tag == DO_HISTORICAL_BYTES then Completed(o.fields.historical)
        else if tag == DO_CARDHOLDER_RELATED_DATA then Completed(CardholderRelatedData(o.fields))
        else if tag == DO_APPLICATION_RELATED_DATA then
          Completed(ApplicationRelatedData(env.serial, o.fields, errorCounterPW1))
        else if tag == DO_EXTENDED_LENGTH_INFORMATION then Completed(o.fields.extendedLength)
        else if tag == DO_PW_STATUS_BYTES then Completed(PWStatusBytes(errorCounterPW1))
        else if tag == DO_KEY_INFORMATION then Completed(o.fields.keyInformation)
        else if tag == DO_ALGORITHM_INFORMATION then Completed(AlgorithmInformation(o.fields))
        else Status(0x88, 0x00, []);
    }

    /** GENERATE ASYMMETRIC KEY PAIR, in the one mode that is implemented: reading a public key. */
    method GenerateAsymmetricKeyPair(params: nat, crt: Bytes) returns (reply: Reply)
      requires Shape()
      ensures reply == PublicKeyReply(S, params, crt)
    {
      if params != 0x8100 {
        return NotAllowed;
      }
      var subkey: Subkey?;
      if crt == [0xb6, 0x00] || crt == [0xb6, 0x03, 0x84, 0x01, 0x01] {
        subkey := Sig;
      } else if crt == [0xb8, 0x00] || crt == [0xb8, 0x03, 0x84, 0x01, 0x02] {
        subkey := Dec;
      } else if crt == [0xa4, 0x00] || crt == [0xa4, 0x03, 0x84, 0x01, 0x03] {
        subkey := Aut;
      } else {
        return NotAllowed;
      }
      if subkey == null {
        return Status(0x6a, 0x88, []);
      }
      reply := PublicKeyData(subkey.publicKey);
    }

    method PublicKeyData(k: PublicKey) returns (reply: Reply)
      ensures reply == if k.OtherPublic? then Erred else Completed(PublicTemplate(k))
    {
      var data: Bytes := [];
      match k {
        case RsaPublic(modulus, exponent) =>
          var mod := Tlv.Print(DO_RSA_MOD, modulus);
          var exp := Tlv.Print(DO_RSA_EXP, NetworkBytes(exponent));
          data := mod + exp;
          Tlv.EncodeTwo(KeyFields(k)[0], KeyFields(k)[1]);
        case EcPublic(point) =>
          data := Tlv.Print(Tlv.DO_EXT_PUB_KEY, point);
          Tlv.EncodeOne(KeyFields(k)[0]);
        case OtherPublic =>
          return Erred;
      }
      var body := Tlv.Print(Tlv.DO_PUB_KEY, data);
      return Completed(body);
    }

    /** GET CHALLENGE: `n` random bytes. */
    method GetChallenge(n: nat, o: Oracle) returns (reply: Reply)
      ensures reply == ChallengeReply(n, o)
    {
      if o.random.None? {
        return Erred;
      }
      var buf := Zeros(n);
      for i := 0 to n
        invariant |buf| == n
        invariant forall k :: 0 <= k < i ==> buf[k] == o.random.value(k)
      {
        buf := buf[i := o.random.value(i)];
      }
      reply := Completed(buf);
    }

    /** The two commands that leave the card alone. */
    method PublicCommand(c: Capdu, o: Oracle) returns (reply: Reply)
      requires Shape() && c.cla == 0x00 && (c.ins == GENERATE_ASYMMETRIC_KEY_PAIR || c.ins == GET_CHALLENGE)
      ensures Outcome(S, reply) == Dispatch(env, S, c, o)
    {
      if c.ins == GENERATE_ASYMMETRIC_KEY_PAIR {
        reply := GenerateAsymmetricKeyPair((c.p1 as int) * 256 + c.p2, c.data);
      } else {
        reply := GetChallenge(c.le, o);
      }
    }

    /** PSO, between the two settings of the white LED. */
    method SecurityOperation(params: nat, data: Bytes, o: Oracle) returns (reply: Reply)
      requires Shape()
      modifies this, Repr
      ensures Shape() && fresh(Repr - old(Repr)) && white == old(white)
      ensures Outcome(S, reply) == LockMachine.SecurityOperation(env, old(S), params, data, o)
    {
      if params == COMPUTE_DIGITAL_SIGNATURE {
        reply := ComputeDigitalSignature(data, o);
      } else if params == DECIPHER {
        reply := Decipher(data, o);
      } else if params == ENCIPHER {
        reply := Encipher(data, o);
      } else {
        reply := NotAllowed;
      }
    }

    method BlinkingOperation(params: nat, data: Bytes, o: Oracle) returns (reply: Reply)
      requires Valid()
      modifies this, Repr
      ensures Valid() && fresh(Repr - old(Repr))
      ensures Outcome(S, reply) == LockMachine.BlinkingOperation(env, old(S), params, data, o)
    {
      SetWhite(true);
      reply := SecurityOperation(params, data, o);
      SetWhite(false);
      Dim();
    }

    /** The dispatcher of APDU commands. */
    method Command(c: Capdu, o: Oracle) returns (reply: Reply)
      requires Valid()
      modifies this, Repr
      ensures Valid() && fresh(Repr - old(Repr))
      ensures Outcome(S, reply) == Dispatch(env, old(S), c, o)
    {
      reply := NotAllowed;
      if c.cla != 0x00 {
        return;
      }
      var params := (c.p1 as int) * 256 + c.p2;
      if c.ins == SELECT {
        reply := Select(c.data);
      } else if c.ins == GET_DATA {
        reply := GetData(params, o);
      } else if c.ins == VERIFY {
        reply := Verify(c.p1, c.p2, c.data);
      } else if c.ins == GENERATE_ASYMMETRIC_KEY_PAIR || c.ins == GET_CHALLENGE {
        reply := PublicCommand(c, o);
      } else if c.ins == PERFORM_SECURITY_OPERATION {
        reply := BlinkingOperation(params, c.data, o);
      }
    }

    /** `getObjects`; `ok` stands for the certificate and object constructors. */
    method GetObjects(ok: bool) returns (reply: Reply)
      requires Shape()
      modifies this`crashed, this`errorCounterPW1, this`S, this`Repr, this`blue, Repr
      ensures Shape() && fresh(Repr - old(Repr))
      ensures Outcome(S, reply) == ListObjects(env, old(S), ok)
    {
      var subkey, id := Referenced(PW1_CDS);
      if subkey == null || subkey.privateKey == null {
        return Console(false);
      }
      if subkey.privateKey.encrypted {
        return Console(false);
      }
      var m := subkey.privateKey.material;
      if ok && m.Some? && (m.value.kind == RsaKey || m.value.kind == StdEcdsaKey) {
        ListAndLock(id.value);
        return Console(true);
      }
      var _ := Verify(PW_LOCK, PW1_CDS, []);
      return Console(false);
    }

    method ListAndLock(ghost id: nat)
      requires Shape()
      modifies this`crashed, this`errorCounterPW1, this`S, this`Repr, this`blue, Repr
      ensures Shape() && fresh(Repr - old(Repr))
      ensures S == Lock(env, Note(old(S), Listed(id)), PW1_CDS)
    {
      Record(Listed(id));
      var _ := Verify(PW_LOCK, PW1_CDS, []);
    }

    /** The decoded entity becomes the card's keys, and its private keys are cached by value. */
    method Adopt(e: Entity)
      requires Agrees(S)
      modifies this
      ensures Valid() && fresh(Repr)
      ensures S == LockMachine.Adopt(old(S), old(armoredKey), e)
    {
      var keys, s, d, a, caches, repr := DecodeAndCache(e, Caches(sig, dec, aut));
      InstallKeys(keys, s, d, a, RingOf(e, S.ring.caches), repr);
      InstallState(caches, LockMachine.Adopt(S, armoredKey, e));
    }

    /** The assignments at the end of a successful initialization. */
    method InstallKeys(keys: seq<Subkey>, s: Subkey?, d: Subkey?, a: Subkey?, ghost r: Ring, ghost repr: set<object>)
      requires this !in repr && RingOk(keys, s, d, a, r, repr)
      modifies this`subkeys, this`Sig, this`Dec, this`Aut, this`Repr
      ensures this !in Repr && RingOk(subkeys, Sig, Dec, Aut, r, Repr) && Repr == repr
    {
      subkeys, Sig, Dec, Aut, Repr := keys, s, d, a, repr;
    }

    method InstallState(caches: Caches, ghost t: State)
      requires this !in Repr && RingOk(subkeys, Sig, Dec, Aut, t.ring, Repr)
      requires t.initialized && t.retries == DEFAULT_PW1_ERROR_COUNTER && !t.white && !t.blue && t.ring.caches == caches
      requires t.armored == armoredKey && t.selected == selected && t.crashed == crashed
      requires t.signatures == digitalSignatureCounter
      modifies this`sig, this`dec, this`aut, this`errorCounterPW1, this`initialized, this`white, this`blue, this`S
      ensures S == t && Valid()
    {
      InstallCaches(caches, t.ring);
      InstallFlags(t.ring);
      Settle(t);
    }

    method InstallCaches(caches: Caches, ghost r: Ring)
      requires this !in Repr && RingOk(subkeys, Sig, Dec, Aut, r, Repr)
      modifies this`sig, this`dec, this`aut
      ensures Caches(sig, dec, aut) == caches && RingOk(subkeys, Sig, Dec, Aut, r, Repr)
    {
      sig, dec, aut := caches.sig, caches.dec, caches.aut;
    }

    method InstallFlags(ghost r: Ring)
      requires this !in Repr && RingOk(subkeys, Sig, Dec, Aut, r, Repr)
      modifies this`errorCounterPW1, this`initialized, this`white, this`blue
      ensures errorCounterPW1 == DEFAULT_PW1_ERROR_COUNTER && initialized && !white && !blue
      ensures RingOk(subkeys, Sig, Dec, Aut, r, Repr)
    {
      errorCounterPW1, initialized, white, blue := DEFAULT_PW1_ERROR_COUNTER, true, false, false;
    }

    method SetArmoredKey(b: Bytes)
      requires Valid()
      modifies this`armoredKey, this`S
      ensures S == old(S).(armored := b) && Valid()
    {
      armoredKey := b;
      S := S.(armored := b);
    }

    method Load(e: Entity)
      requires Valid()
      modifies this
      ensures Valid() && fresh(Repr)
      ensures S == LockMachine.Load(old(S), old(armoredKey), e)
    {
      Adopt(e);
      SignalVerificationStatus();
    }

    /** The armored key, decrypted with the device key where that is configured. */
    method Unwrap(derived: bool) returns (ok: bool)
      requires Valid()
      modifies this`armoredKey, this`S
      ensures Valid()
      ensures var plain := Plain(env, old(S).armored, derived);
              && ok == plain.Some?
              && S == old(S).(armored := if plain.Some? then plain.value else [])
    {
      ok := true;
      if env.snvs {
        var plain := if derived then env.unwrap(armoredKey) else None;
        ok := plain.Some?;
        SetArmoredKey(if ok then plain.value else []);
      }
    }

    /** `Init`. */
    method Init(derived: bool) returns (reply: Reply)
      requires Valid()
      modifies this
      ensures Valid() && fresh(Repr - old(Repr))
      ensures Outcome(S, reply) == LockMachine.Init(env, old(S), derived)
    {
      if initialized {
        return Console(false);
      }
      var ok := Unwrap(derived);
      if !ok {
        return Console(false);
      }
      var e := env.parse(armoredKey);
      if e.None? {
        return Console(false);
      }
      Load(e.value);
      return Console(true);
    }

    /** The `lock` command of the console. */
    method ConsoleLock(target: Target) returns (reply: Reply)
      requires Valid()
      modifies this, Repr
      ensures Valid() && fresh(Repr - old(Repr))
      ensures Outcome(S, reply) == LockFromConsole(env, old(S), target)
    {
      if !initialized {
        return Console(false);
      }
      VerifyEach(PW_LOCK, Passwords(target), []);
      return Console(true);
    }

    /** Initializing a card that is not yet. */
    method EnsureInitialized(derived: bool) returns (ok: bool)
      requires Valid()
      modifies this
      ensures Valid() && fresh(Repr - old(Repr))
      ensures S == (if old(S).initialized then old(S) else LockMachine.Init(env, old(S), derived).state) && ok == S.initialized
    {
      if initialized {
        return true;
      }
      var reply := Init(derived);
      ok := reply == Console(true);
    }

    /** The `unlock` command; an uninitialized card is initialized first. */
    method ConsoleUnlock(target: Target, derived: bool, passphrase: Option<Bytes>) returns (reply: Reply)
      requires Valid()
      modifies this, Repr
      ensures Valid() && fresh(Repr - old(Repr))
      ensures Outcome(S, reply) == UnlockFromConsole(env, old(S), target, derived, passphrase)
    {
      var ok := EnsureInitialized(derived);
      if !ok || passphrase.None? {
        return Console(false);
      }
      VerifyEach(PW_VERIFY, Passwords(target), passphrase.value);
      return Console(true);
    }

    /** Any one command. */
    method Execute(c: LockMachine.Command) returns (reply: Reply)
      requires Valid()
      modifies this, Repr
      ensures Valid() && fresh(Repr - old(Repr))
      ensures Outcome(S, reply) == Exec(env, old(S), c)
    {
      if crashed {
        return Panicked;
      }
      match c
      case Initialize(derived) => reply := Init(derived);
      case Apdu(capdu, o) => reply := Command(capdu, o);
      case ConsoleLock(t) => reply := ConsoleLock(t);
      case ConsoleUnlock(t, derived, pw) => reply := ConsoleUnlock(t, derived, pw);
      case ListKeys(ok) => reply := GetObjects(ok);
    }

    /** A whole session: the pointer-level card refines the value machine over every command sequence. */
    method Session(cs: seq<LockMachine.Command>)
      requires Valid()
      modifies this, Repr
      ensures Valid() && fresh(Repr - old(Repr))
      ensures S == Run(env, old(S), cs)
    {
      for n := 0 to |cs|
        invariant Valid() && fresh(Repr - old(Repr))
        invariant S == Run(env, old(S), cs[..n])
      {
        assert cs[..n + 1][..n] == cs[..n];
        var _ := Execute(cs[n]);
      }
      assert cs[..|cs|] == cs;
    }
  }

  /** The key material a slot pointer reaches, without the abstract state. */
  predicate HoldsMaterial(subkey: Subkey?)
    reads subkey, if subkey == null then null else subkey.privateKey
  {
    subkey != null && subkey.privateKey != null && !subkey.privateKey.encrypted && subkey.privateKey.material.Some?
  }

  /** Any life of a card, from power-on: its heap backs the run of the machine, and its LEDs tell the truth. */
  method Life(env: Env, armored: Bytes, blue: bool, white: bool, cs: seq<LockMachine.Command>) returns (card: Card)
    ensures fresh(card) && card.Valid()
    ensures card.S == Run(env, Start(armored, blue, white), cs)
    ensures card.initialized ==> card.errorCounterPW1 <= 3 && !card.white
    ensures card.initialized ==> (card.blue <==> HoldsMaterial(card.Sig) || HoldsMaterial(card.Dec))
  {
    card := new Card(env, armored, blue, white);
    card.Session(cs);
    LockSteps.ReachableInv(env, armored, blue, white, cs);
    SlotsReach(card);
  }

  lemma SlotsReach(card: Card)
    requires card.Shape()
    ensures HoldsMaterial(card.Sig) <==> Glows(card.S, card.S.ring.sig)
    ensures HoldsMaterial(card.Dec) <==> Glows(card.S, card.S.ring.dec)
  {
    var s := card.S;
    if s.ring.sig.Some? {
      assert SubkeyOk(card.subkeys[s.ring.sig.value], s.ring.sig.value, s.ring.live[s.ring.sig.value], card.Repr);
    }
    if s.ring.dec.Some? {
      assert SubkeyOk(card.subkeys[s.ring.dec.value], s.ring.dec.value, s.ring.live[s.ring.dec.value], card.Repr);
    }
  }
}
