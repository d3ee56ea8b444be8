/** The catalog of attached databases: names, indices and handles, with a
    growing bitmap of the indices in use. Indices 0 and 1 are main and temp. */
module Catalog {
  import opened Common
  import opened Bits

  predicate BitAt(bitmap: seq<bv64>, index: nat) {
    index / 64 < |bitmap| && Bit(bitmap[index / 64], index % 64)
  }

  lemma WordIndex(wordIdx: nat, bit: nat)
    requires bit < 64
    ensures (wordIdx * 64 + bit) / 64 == wordIdx && (wordIdx * 64 + bit) % 64 == bit
  {
  }

  lemma SetWord(bitmap: seq<bv64>, wordIdx: nat, bit: nat, i: nat)
    requires wordIdx < |bitmap| && bit < 64
    ensures BitAt(bitmap[wordIdx := Set(bitmap[wordIdx], Mask(bit))], i) <==>
            BitAt(bitmap, i) || i == wordIdx * 64 + bit
    ensures BitAt(bitmap[wordIdx := Clear(bitmap[wordIdx], Mask(bit))], i) <==>
            BitAt(bitmap, i) && i != wordIdx * 64 + bit
  {
    hide Bit, Set, Clear, Mask;
    WordIndex(wordIdx, bit);
    if i / 64 == wordIdx {
      SetBit(bitmap[wordIdx], bit, i % 64);
    }
  }

  lemma PushWord(bitmap: seq<bv64>, i: nat)
    ensures BitAt(bitmap + [1], i) <==> BitAt(bitmap, i) || i == |bitmap| * 64
  {
    OneBits(i % 64);
    hide Bit;
  }

  /** The least index that is neither main, temp nor in use. */
  ghost predicate IsLeastFree(used: set<nat>, index: nat) {
    index >= 2 && index !in used && forall j: nat :: 2 <= j < index ==> j in used
  }

  class DatabaseCatalog<D> {
    var nameToIndex: map<string, nat>
    var bitmap: seq<bv64>
    var indexToData: map<nat, D>

    /** The bitmap and the two maps tell the same story, and no two names share
        an index. */
    ghost predicate Valid()
      reads this
    {
      && (forall i: nat :: BitAt(bitmap, i) <==> i < 2 || i in nameToIndex.Values)
      && (forall a, b :: a in nameToIndex && b in nameToIndex && nameToIndex[a] == nameToIndex[b] ==> a == b)
      && (forall a :: a in nameToIndex ==> nameToIndex[a] >= 2)
      && indexToData.Keys == nameToIndex.Values
    }

    constructor ()
      ensures Valid() && nameToIndex == map[] && indexToData == map[]
    {
      nameToIndex := map[];
      bitmap := [3];
      indexToData := map[];
      new;
      forall i: nat ensures BitAt(bitmap, i) <==> i < 2 {
        OneBits(i % 64);
      }
    }

    method AllocateIndex() returns (index: nat)
      modifies this`bitmap
      ensures !BitAt(old(bitmap), index) && forall j: nat :: j < index ==> BitAt(old(bitmap), j)
      ensures forall i: nat :: BitAt(bitmap, i) <==> BitAt(old(bitmap), i) || i == index
    {
      hide Bit, Set, Mask;
      for wordIdx := 0 to |bitmap|
        invariant bitmap == old(bitmap)
        invariant forall j: nat :: j < wordIdx * 64 ==> BitAt(bitmap, j)
      {
        var word := bitmap[wordIdx];
        if word != ALL_ONES {
          var freeBit := FindFirstZeroBit(word);
          FirstZeroBit(word);
          index := wordIdx * 64 + freeBit;
          WordIndex(wordIdx, freeBit);
          forall j: nat | j < index ensures BitAt(bitmap, j) {
            if j >= wordIdx * 64 { WordIndex(wordIdx, j - wordIdx * 64); }
          }
          forall i: nat
            ensures BitAt(bitmap[wordIdx := Set(word, Mask(freeBit))], i) <==> BitAt(bitmap, i) || i == index
          {
            SetWord(bitmap, wordIdx, freeBit, i);
          }
          bitmap := bitmap[wordIdx := Set(word, Mask(freeBit))];
          return;
        }
        forall j: nat | wordIdx * 64 <= j < (wordIdx + 1) * 64 ensures BitAt(bitmap, j) {
          WordIndex(wordIdx, j - wordIdx * 64);
          AllOnesBits(j - wordIdx * 64);
        }
      }
      var wordIdx := |bitmap|;
      forall i: nat ensures BitAt(bitmap + [1], i) <==> BitAt(bitmap, i) || i == wordIdx * 64 {
        PushWord(bitmap, i);
      }
      bitmap := bitmap + [1];
      index := wordIdx * 64;
    }

    method DeallocateIndex(index: nat)
      modifies this`bitmap
      ensures forall i: nat :: BitAt(bitmap, i) <==> BitAt(old(bitmap), i) && i != index
    {
      hide Bit, Clear, Mask;
      var wordIdx, bitIdx := index / 64, index % 64;
      if wordIdx < |bitmap| {
        forall i: nat ensures BitAt(bitmap[wordIdx := Clear(bitmap[wordIdx], Mask(bitIdx))], i) <==>
                                BitAt(bitmap, i) && i != index
        {
          SetWord(bitmap, wordIdx, bitIdx, i);
        }
        bitmap := bitmap[wordIdx := Clear(bitmap[wordIdx], Mask(bitIdx))];
      }
    }

    method Insert(name: string, data: D) returns (index: nat)
      requires Valid() && name !in nameToIndex
      modifies this
      ensures Valid() && IsLeastFree(old(nameToIndex.Values), index)
      ensures nameToIndex == old(nameToIndex)[name := index] && indexToData == old(indexToData)[index := data]
    {
      hide BitAt;
      index := AllocateIndex();
      InsertValues(nameToIndex, name, index);
      nameToIndex := nameToIndex[name := index];
      indexToData := indexToData[index := data];
    }

    method Remove(name: string) returns (r: Option<nat>)
      requires Valid()
      modifies this
      ensures Valid()
      ensures if name in old(nameToIndex) then
                var index := old(nameToIndex)[name];
                && r == Some(index)
                && nameToIndex == old(nameToIndex) - {name} && indexToData == old(indexToData) - {index}
              else r == None && nameToIndex == old(nameToIndex) && indexToData == old(indexToData)
    {
      hide BitAt;
      if name !in nameToIndex {
        return None;
      }
      var index := nameToIndex[name];
      RemoveValues(nameToIndex, name);
      nameToIndex := nameToIndex - {name};
      DeallocateIndex(index);
      indexToData := indexToData - {index};
      r := Some(index);
    }

    /** A known name always has a database, so the lookup misses only names that
        are not attached. */
    method GetDatabaseByName(name: string) returns (r: Option<(nat, D)>)
      requires Valid()
      ensures if name in nameToIndex then
                nameToIndex[name] in indexToData && r == Some((nameToIndex[name], indexToData[nameToIndex[name]]))
              else r == None
    {
      if name !in nameToIndex {
        return None;
      }
      var index := nameToIndex[name];
      if index !in indexToData {
        return None;
      }
      r := Some((index, indexToData[index]));
    }
  }

  lemma InsertValues(m: map<string, nat>, name: string, index: nat)
    requires name !in m
    ensures m[name := index].Values == m.Values + {index}
  {
    var n := m[name := index];
    forall v | v in m.Values + {index} ensures v in n.Values {
      if v == index {
        assert n[name] == v;
      } else {
        var a :| a in m && m[a] == v;
        assert n[a] == v;
      }
    }
  }

  lemma RemoveValues(m: map<string, nat>, name: string)
    requires name in m && forall a, b :: a in m && b in m && m[a] == m[b] ==> a == b
    ensures (m - {name}).Values == m.Values - {m[name]}
  {
    var n := m - {name};
    forall v | v in m.Values - {m[name]} ensures v in n.Values {
      var a :| a in m && m[a] == v;
      assert n[a] == v;
    }
  }
}
