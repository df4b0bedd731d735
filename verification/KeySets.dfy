/** The set of rating keys one walk has read (internal/libstats/keyset.go). Keys that share
    their upper 48 bits share a group, which keeps the lower 16 in a sorted list of at most
    4096 and past that in a bitmap of 1024 words. Every state is proved to stand for a mathematical set. */
module KeySets {
  import opened Ints

  const GROUP_LIST_MAX: nat := 4096
  const WORDS: nat := 1024

  /** The word with only bit n set: 1 shifted left n times. */
  function BitAt(n: nat): bv64
    requires n < 64
  {
    if n == 0 then 1 else BitAt(n - 1) << 1
  }

  predicate Test(word: bv64, bit: bv64) {
    word & bit != 0
  }

  function With(word: bv64, bit: bv64): bv64 {
    word | bit
  }

  predicate Apart(a: bv64, b: bv64) {
    a & b == 0
  }

  lemma {:induction false} BitsApart(i: nat, j: nat)
    requires i < j < 64
    ensures Apart(BitAt(i), BitAt(j)) && Apart(BitAt(j), BitAt(i))
  {
    if i > 0 {
      BitsApart(i - 1, j - 1);
    }
  }

  /** The highest bit is not shifted out of the word. */
  lemma TopBit()
    ensures BitAt(63) == 0x8000_0000_0000_0000
  {
    assert BitAt(3) == 0x8;
    assert BitAt(7) == 0x80;
    assert BitAt(11) == 0x800;
    assert BitAt(15) == 0x8000;
    assert BitAt(19) == 0x8_0000;
    assert BitAt(23) == 0x80_0000;
    assert BitAt(27) == 0x800_0000;
    assert BitAt(31) == 0x8000_0000;
    assert BitAt(35) == 0x8_0000_0000;
    assert BitAt(39) == 0x80_0000_0000;
    assert BitAt(43) == 0x800_0000_0000;
    assert BitAt(47) == 0x8000_0000_0000;
    assert BitAt(51) == 0x8_0000_0000_0000;
    assert BitAt(55) == 0x80_0000_0000_0000;
    assert BitAt(59) == 0x800_0000_0000_0000;
  }

  lemma {:induction false} BitNotZero(n: nat)
    requires n < 64
    ensures BitAt(n) != 0
  {
    if n > 0 {
      BitNotZero(n - 1);
      TopBit();
      BitsApart(n - 1, 63);
    }
  }

  lemma WithApart(word: bv64, a: bv64, b: bv64)
    requires Apart(a, b)
    ensures Test(With(word, a), b) == Test(word, b)
  {
  }

  lemma WithSame(word: bv64, a: bv64)
    requires a != 0
    ensures Test(With(word, a), a)
  {
    assert (word | a) & a == a;
  }

  /** Setting a bit of a word sets that bit. */
  lemma SetSame(word: bv64, i: nat)
    requires i < 64
    ensures Test(With(word, BitAt(i)), BitAt(i))
  {
    BitNotZero(i);
    WithSame(word, BitAt(i));
  }

  /** Setting a bit of a word sets no other bit. */
  lemma SetOther(word: bv64, i: nat, j: nat)
    requires i < 64 && j < 64 && i != j
    ensures Test(With(word, BitAt(i)), BitAt(j)) == Test(word, BitAt(j))
  {
    hide *;
    BitsApart(if i < j then i else j, if i < j then j else i);
    WithApart(word, BitAt(i), BitAt(j));
  }

  /** v is in the bitmap. */
  ghost predicate InBitmap(words: seq<bv64>, v: uint16)
    requires |words| == WORDS
  {
    Test(words[v / 64], BitAt(v % 64))
  }

  function SetBit(words: seq<bv64>, v: uint16): seq<bv64>
    requires |words| == WORDS
  {
    words[v / 64 := With(words[v / 64], BitAt(v % 64))]
  }

  lemma SetBitSame(words: seq<bv64>, v: uint16)
    requires |words| == WORDS
    ensures InBitmap(SetBit(words, v), v)
  {
    SetSame(words[v / 64], v % 64);
  }

  lemma SetBitOther(words: seq<bv64>, v: uint16, x: uint16)
    requires |words| == WORDS && x != v
    ensures InBitmap(SetBit(words, v), x) == InBitmap(words, x)
  {
    if x / 64 == v / 64 {
      SetOther(words[v / 64], v % 64, x % 64);
    }
  }

  ghost predicate StrictlySorted(low: seq<uint16>) {
    forall i, j | 0 <= i < j < |low| :: low[i] < low[j]
  }

  /** slices.BinarySearch: where v is, or where it belongs. */
  method BinarySearch(low: seq<uint16>, v: uint16) returns (i: nat, found: bool)
    requires StrictlySorted(low)
    ensures i <= |low|
    ensures forall j | 0 <= j < i :: low[j] < v
    ensures forall j | i <= j < |low| :: v <= low[j]
    ensures found <==> v in low
    ensures found <==> i < |low| && low[i] == v
  {
    i := 0;
    var hi := |low|;
    while i < hi
      invariant 0 <= i <= hi <= |low|
      invariant forall j | 0 <= j < i :: low[j] < v
      invariant forall j | hi <= j < |low| :: v <= low[j]
    {
      var mid := (i + hi) / 2;
      if low[mid] < v {
        i := mid + 1;
      } else {
        hi := mid;
      }
    }
    found := i < |low| && low[i] == v;
  }

  class KeyGroup {
    var bits: array?<bv64>
    var low: seq<uint16>
    ghost var Contents: set<uint16>

    /** A group is either a strictly sorted list of at most 4096 or a bitmap. */
    ghost predicate Valid()
      reads this, bits
    {
      if bits == null then
        && StrictlySorted(low) && |low| <= GROUP_LIST_MAX
        && (forall v: uint16 :: v in Contents <==> v in low)
      else
        && bits.Length == WORDS && low == []
        && (forall v: uint16 :: v in Contents <==> InBitmap(bits[..], v))
    }

    constructor ()
      ensures Valid() && Contents == {} && bits == null
    {
      bits := null;
      low := [];
      Contents := {};
    }

    /** Adds v to the bitmap. */
    method SetBitOf(v: uint16)
      requires bits != null && Valid()
      modifies this`Contents, bits
      ensures Valid() && Contents == old(Contents) + {v}
    {
      ghost var before := bits[..];
      bits[v / 64] := With(bits[v / 64], BitAt(v % 64));
      assert bits[..] == SetBit(before, v);
      Contents := Contents + {v};
      forall x: uint16 ensures x in Contents <==> InBitmap(SetBit(before, v), x) {
        if x == v {
          SetBitSame(before, v);
        } else {
          SetBitOther(before, v, x);
        }
      }
    }

    /** Replaces the list by a bitmap of the same keys. */
    method ToBitmap()
      requires Valid() && bits == null
      modifies this
      ensures Valid() && Contents == old(Contents)
      ensures bits != null && fresh(bits)
    {
      var xs := low;
      ghost var all := Contents;
      bits := new bv64[WORDS](_ => 0);
      low, Contents := [], {};
      for i := 0 to |xs|
        invariant bits != null && fresh(bits) && Valid()
        invariant forall x: uint16 :: x in Contents <==> x in xs[..i]
      {
        SetBitOf(xs[i]);
      }
      assert Contents == all;
    }

    /** insert: true when v was not there, and it then is. */
    method Insert(v: uint16) returns (absent: bool)
      requires Valid()
      modifies this, bits
      ensures Valid() && (bits == old(bits) || fresh(bits))
      ensures absent <==> v !in old(Contents)
      ensures Contents == old(Contents) + {v}
    {
      if bits != null {
        if Test(bits[v / 64], BitAt(v % 64)) {
          return false;
        }
        SetBitOf(v);
        return true;
      }
      var i, found := BinarySearch(low, v);
      if found {
        return false;
      }
      if |low| < GROUP_LIST_MAX {
        low := low[..i] + [v] + low[i..];
        Contents := Contents + {v};
        return true;
      }
      ToBitmap();
      SetBitOf(v);
      return true;
    }
  }

  /** The halves recorded per group stand for exactly the keys. */
  ghost predicate KeysOf(keys: set<uint64>, halves: map<nat, set<uint16>>) {
    forall k: uint64 :: k in keys <==> k / 0x1_0000 in halves && k % 0x1_0000 in halves[k / 0x1_0000]
  }

  lemma KeysOfInsert(keys: set<uint64>, halves: map<nat, set<uint16>>, key: uint64)
    requires KeysOf(keys, halves) && key / 0x1_0000 in halves
    ensures key in keys <==> key % 0x1_0000 in halves[key / 0x1_0000]
    ensures KeysOf(keys + {key}, halves[key / 0x1_0000 := halves[key / 0x1_0000] + {key % 0x1_0000}])
  {
    var high, v := key / 0x1_0000, key % 0x1_0000;
    var after := halves[high := halves[high] + {v}];
    forall k: uint64
      ensures k in keys + {key} <==> k / 0x1_0000 in after && k % 0x1_0000 in after[k / 0x1_0000]
    {
      assert k == 0x1_0000 * (k / 0x1_0000) + k % 0x1_0000;
      assert key == 0x1_0000 * high + v;
    }
  }

  lemma KeysOfNewGroup(keys: set<uint64>, halves: map<nat, set<uint16>>, high: nat)
    requires KeysOf(keys, halves) && high !in halves
    ensures KeysOf(keys, halves[high := {}])
  {
    forall k: uint64
      ensures k in keys <==> k / 0x1_0000 in halves[high := {}] && k % 0x1_0000 in halves[high := {}][k / 0x1_0000]
    {
    }
  }

  class KeySet {
    var groups: map<nat, KeyGroup>
    ghost var Halves: map<nat, set<uint16>>
    ghost var Keys: set<uint64>
    // the group every object of the set belongs to, so no two groups share one
    ghost var Owner: map<object, nat>

    ghost predicate Owned(g: KeyGroup, high: nat)
      reads this, g
    {
      && g in Owner && Owner[g] == high
      && (g.bits != null ==> g.bits in Owner && Owner[g.bits] == high)
    }

    /** The group of a high half is its own and holds its low halves. */
    ghost predicate Holds(h: nat)
      requires h in groups && h in Halves
      reads this, Owner.Keys
    {
      groups[h] in Owner.Keys && Owned(groups[h], h) && groups[h].Valid() && groups[h].Contents == Halves[h]
    }

    ghost predicate Linked()
      reads this, Owner.Keys
      ensures Linked() ==> Halves.Keys == groups.Keys
    {
      Halves.Keys == groups.Keys && forall h | h in groups :: Holds(h)
    }

    ghost predicate Valid()
      reads this, Owner.Keys
    {
      Linked() && KeysOf(Keys, Halves)
    }

    constructor ()
      ensures Valid() && Owner == map[] && Keys == {}
    {
      groups := map[];
      Halves := map[];
      Keys := {};
      Owner := map[];
    }

    /** Starts an empty group for a high half not seen before. */
    method AddGroup(high: nat)
      requires Linked() && high !in Halves
      modifies this
      ensures Linked() && fresh(Owner.Keys - old(Owner.Keys))
      ensures Keys == old(Keys) && Halves == old(Halves)[high := {}]
    {
      hide KeyGroup.Valid;
      var g := new KeyGroup();
      groups := groups[high := g];
      Halves := Halves[high := {}];
      Owner := Owner[g := high];
      forall h | h in groups ensures Holds(h) {
        assert h != high ==> old(Holds(h));
      }
    }

    /** Inserts v, the low half of key, in the group of high. */
    method InsertInGroup(high: nat, v: uint16, ghost key: uint64) returns (absent: bool)
      requires Linked() && high in Halves
      modifies this, Owner.Keys
      ensures Linked() && fresh(Owner.Keys - old(Owner.Keys))
      ensures absent <==> v !in old(Halves)[high]
      ensures Keys == old(Keys) + {key} && Halves == old(Halves)[high := old(Halves)[high] + {v}]
    {
      hide KeyGroup.Valid;
      var g := groups[high];
      absent := g.Insert(v);
      if g.bits != null {
        Owner := Owner[g.bits := high];
      }
      Halves := Halves[high := Halves[high] + {v}];
      Keys := Keys + {key};
      forall h | h in groups ensures Holds(h) {
        if h != high {
          OtherHolds(h);
        }
      }
    }

    /** A group that nothing touched still holds. */
    twostate lemma OtherHolds(h: nat)
      requires old(h in groups && h in Halves) && h in groups && h in Halves
      requires groups[h] == old(groups[h]) && Halves[h] == old(Halves[h]) && old(Holds(h))
      requires groups[h] in Owner && Owner[groups[h]] == old(Owner[groups[h]])
      requires unchanged(groups[h])
      requires groups[h].bits != null ==>
                 unchanged(groups[h].bits) && groups[h].bits in Owner && Owner[groups[h].bits] == old(Owner[groups[h].bits])
      ensures Holds(h)
    {
    }

    /** insert: true exactly when the key was never inserted before; adds that key only. */
    method Insert(key: uint64) returns (absent: bool)
      requires Valid()
      modifies this, Owner.Keys
      ensures Valid() && fresh(Owner.Keys - old(Owner.Keys))
      ensures absent <==> key !in old(Keys)
      ensures Keys == old(Keys) + {key}
    {
      hide Linked, KeysOf;
      var high, v := key / 0x1_0000, key % 0x1_0000;
      assert Halves.Keys == groups.Keys;
      if high !in groups {
        KeysOfNewGroup(Keys, Halves, high);
        AddGroup(high);
      }
      KeysOfInsert(Keys, Halves, key);
      absent := InsertInGroup(high, v, key);
    }
  }
}
