/**
 * The 21-byte key under which a guard record is looked up in the device tree:
 * kind and element count in one byte, then type and instance of each element,
 * then zero padding.
 */
module GuardKey {
  import opened Base

  const KEY_LENGTH := 21
  const MAX_ELEMENTS := 10

  datatype Element = Element(targetType: Byte, instance: Byte)

  /** An entity path as meant: the kind nibble and the elements in use. */
  datatype EntityPath = EntityPath(kind: nat, elements: seq<Element>)

  predicate ValidPath(p: EntityPath) {
    p.kind < 16 && |p.elements| <= MAX_ELEMENTS
  }

  /** An entity path as stored in a record: ten slots, of which the low nibble of typeSize are in use. */
  datatype StoredPath = StoredPath(typeSize: Byte, slots: seq<Element>)

  predicate ValidStored(s: StoredPath) {
    |s.slots| == MAX_ELEMENTS && s.typeSize % 16 <= MAX_ELEMENTS
  }

  function PathOf(s: StoredPath): (p: EntityPath)
    requires ValidStored(s)
    ensures ValidPath(p)
  {
    EntityPath(s.typeSize / 16, s.slots[..s.typeSize % 16])
  }

  function KeyByte(p: EntityPath, j: nat): Byte
    requires ValidPath(p)
  {
    if j == 0 then p.kind * 16 + |p.elements|
    else if (j - 1) / 2 >= |p.elements| then 0
    else if j % 2 == 1 then p.elements[(j - 1) / 2].targetType
    else p.elements[(j - 1) / 2].instance
  }

  function KeyOf(p: EntityPath): (key: seq<Byte>)
    requires ValidPath(p)
    ensures |key| == KEY_LENGTH
  {
    seq(KEY_LENGTH, j requires 0 <= j < KEY_LENGTH => KeyByte(p, j))
  }

  /** No byte is set behind the first n elements. */
  predicate ZeroPadded(key: seq<Byte>, n: nat)
    requires |key| == KEY_LENGTH
  {
    forall j :: 2 * n < j < KEY_LENGTH ==> key[j] == 0
  }

  function ElementsOf(key: seq<Byte>, n: nat): (r: seq<Element>)
    requires |key| == KEY_LENGTH && n <= MAX_ELEMENTS
    ensures |r| == n
  {
    seq(n, k requires 0 <= k < n => Element(key[2 * k + 1], key[2 * k + 2]))
  }

  /** The entity path a key names; None for a bad count or for bytes in the padding. */
  function Decode(key: seq<Byte>): Option<EntityPath>
    requires |key| == KEY_LENGTH
  {
    var n := key[0] % 16;
    if n > MAX_ELEMENTS || !ZeroPadded(key, n) then None
    else Some(EntityPath(key[0] / 16, ElementsOf(key, n)))
  }

  lemma KeyElements(p: EntityPath)
    requires ValidPath(p)
    ensures ElementsOf(KeyOf(p), |p.elements|) == p.elements
  {
    var n := |p.elements|;
    forall k | 0 <= k < n ensures ElementsOf(KeyOf(p), n)[k] == p.elements[k] {
      var lo, hi := 2 * k + 1, 2 * k + 2;
      assert (lo - 1) / 2 == k && (hi - 1) / 2 == k && lo % 2 == 1 && hi % 2 == 0;
      assert KeyOf(p)[lo] == KeyByte(p, lo) && KeyOf(p)[hi] == KeyByte(p, hi);
    }
  }

  lemma KeyPadding(p: EntityPath)
    requires ValidPath(p)
    ensures ZeroPadded(KeyOf(p), |p.elements|)
  {
    forall j | 2 * |p.elements| < j < KEY_LENGTH ensures KeyOf(p)[j] == 0 {
      assert (j - 1) / 2 >= |p.elements|;
    }
  }

  lemma NibbleSplit(hi: nat, lo: nat)
    requires lo < 16
    ensures (hi * 16 + lo) / 16 == hi && (hi * 16 + lo) % 16 == lo
  {
  }

  lemma DecodeKey(p: EntityPath)
    requires ValidPath(p)
    ensures Decode(KeyOf(p)) == Some(p)
  {
    KeyElements(p);
    KeyPadding(p);
    NibbleSplit(p.kind, |p.elements|);
    assert KeyOf(p)[0] == p.kind * 16 + |p.elements|;
  }

  lemma KeyDecode(key: seq<Byte>)
    requires |key| == KEY_LENGTH && Decode(key).Some?
    ensures ValidPath(Decode(key).value) && KeyOf(Decode(key).value) == key
  {
    var p := Decode(key).value;
    forall j | 0 <= j < KEY_LENGTH ensures KeyByte(p, j) == key[j] {
      if j > 0 {
        var k := (j - 1) / 2;
        assert j == 2 * k + 1 || j == 2 * k + 2;
      }
    }
  }

  /** Comparing the key bytes is comparing entity paths: the record's key equals b iff b decodes to its path. */
  lemma KeyMatch(s: StoredPath, b: seq<Byte>)
    requires ValidStored(s) && |b| == KEY_LENGTH
    ensures KeyOf(PathOf(s)) == b <==> Decode(b) == Some(PathOf(s))
  {
    DecodeKey(PathOf(s));
    if Decode(b) == Some(PathOf(s)) {
      KeyDecode(b);
    }
  }

  /** The bytes of a key: the stored count byte, then type and instance of each element in use, then zeros. */
  lemma KeyBytes(s: StoredPath, j: nat)
    requires ValidStored(s) && j < 21
    ensures var key, n := KeyOf(PathOf(s)), s.typeSize % 16;
            && |key| == 21
            && (j == 0 ==> key[j] == s.typeSize)
            && (j % 2 == 1 && j / 2 < n ==> key[j] == s.slots[j / 2].targetType)
            && (j % 2 == 0 && 0 < j && j / 2 - 1 < n ==> key[j] == s.slots[j / 2 - 1].instance)
            && (j > 2 * n ==> key[j] == 0)
  {
    NibbleSplit(s.typeSize / 16, s.typeSize % 16);
    assert KeyOf(PathOf(s))[j] == KeyByte(PathOf(s), j);
    if j % 2 == 1 {
      assert (j - 1) / 2 == j / 2;
    } else if j > 0 {
      assert (j - 1) / 2 == j / 2 - 1;
    }
  }

  /** Two records share a key iff they name the same entity path, whatever their unused slots hold. */
  lemma KeyInjective(s: StoredPath, t: StoredPath)
    requires ValidStored(s) && ValidStored(t)
    ensures KeyOf(PathOf(s)) == KeyOf(PathOf(t)) <==>
            s.typeSize == t.typeSize && s.slots[..s.typeSize % 16] == t.slots[..t.typeSize % 16]
  {
    DecodeKey(PathOf(s));
    DecodeKey(PathOf(t));
  }

  /** Fill the key of one record in place. */
  method BuildKey(s: StoredPath) returns (path: array<Byte>)
    requires ValidStored(s)
    ensures fresh(path) && path[..] == KeyOf(PathOf(s))
  {
    path := new Byte[KEY_LENGTH](_ => 0);
    var index, i := 0, 0;
    path[index] := s.typeSize;
    index := index + 1;
    ghost var p := PathOf(s);
    while i < s.typeSize % 16
      invariant 0 <= i <= s.typeSize % 16 && index == 2 * i + 1
      invariant forall j :: 0 <= j < index ==> path[j] == KeyByte(p, j)
      invariant forall j :: index <= j < KEY_LENGTH ==> path[j] == 0
    {
      path[index] := s.slots[i].targetType;
      path[index + 1] := s.slots[i].instance;
      index := index + 2;
      i := i + 1;
    }
    assert path[..] == KeyOf(p);
  }
}
