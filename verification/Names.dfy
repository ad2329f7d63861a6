/** The table of named groups: sorted insertion while compiling, binary search afterwards. */
module Names {
  import opened Tree

  type Name = seq<byte>

  /** The order of strcmp(): negative, zero or positive. */
  function Cmp(a: Name, b: Name): (c: int)
    ensures -1 <= c <= 1
  {
    if a == [] && b == [] then 0
    else if a == [] then -1
    else if b == [] then 1
    else if a[0] < b[0] then -1
    else if a[0] > b[0] then 1
    else Cmp(a[1..], b[1..])
  }

  lemma {:induction false} CmpEqual(a: Name, b: Name)
    ensures Cmp(a, b) == 0 <==> a == b
    ensures Cmp(a, b) == -Cmp(b, a)
    decreases |a|
  {
    if a != [] && b != [] && a[0] == b[0] {
      CmpEqual(a[1..], b[1..]);
      assert a == [a[0]] + a[1..] && b == [b[0]] + b[1..];
    }
  }

  lemma {:induction false} CmpTrans(a: Name, b: Name, c: Name)
    requires Cmp(a, b) <= 0 && Cmp(b, c) <= 0
    ensures Cmp(a, c) <= 0 && (Cmp(a, b) < 0 || Cmp(b, c) < 0 ==> Cmp(a, c) < 0)
    decreases |a|
  {
    if a != [] && b != [] && c != [] && a[0] == b[0] == c[0] {
      CmpTrans(a[1..], b[1..], c[1..]);
    }
  }

  /** Two names that agree up to k are ordered as their rests are. */
  lemma {:induction false} CmpSkip(a: Name, b: Name, k: nat)
    requires k <= |a| && k <= |b| && a[..k] == b[..k]
    ensures Cmp(a, b) == Cmp(a[k..], b[k..])
    decreases k
  {
    if k > 0 {
      assert a[0] == a[..k][0] == b[..k][0] == b[0];
      assert a[1..][..k - 1] == a[..k][1..] == b[..k][1..] == b[1..][..k - 1];
      CmpSkip(a[1..], b[1..], k - 1);
      assert a[1..][k - 1..] == a[k..] && b[1..][k - 1..] == b[k..];
    } else {
      assert a[0..] == a && b[0..] == b;
    }
  }

  // ---------------------------------------------------------------------------------------
  // Entries

  datatype Entry = Entry(name: Name, number: nat)

  ghost predicate Sorted(es: seq<Entry>) {
    forall i, j :: 0 <= i < j < |es| ==> Cmp(es[i].name, es[j].name) <= 0
  }

  predicate ZeroFree(name: Name) {
    forall k :: 0 <= k < |name| ==> name[k] != 0
  }

  function NumberIn(slot: seq<byte>): nat
    requires |slot| >= 2
  {
    var high: int := slot[0];
    high * 256 + slot[1]
  }

  /** A slot of the table: the number, the name, a zero and padding. */
  ghost predicate IsSlot(slot: seq<byte>, e: Entry, size: nat) {
    && |slot| == size && |e.name| + 3 <= size && ZeroFree(e.name)
    && e.number == NumberIn(slot)
    && slot[2..2 + |e.name|] == e.name && slot[2 + |e.name|] == 0
  }

  /** Inserting keeps the order if everything before is not greater and everything from i on is. */
  lemma {:induction false} SortedInsert(es: seq<Entry>, i: nat, e: Entry)
    requires Sorted(es) && i <= |es|
    requires forall k :: 0 <= k < i ==> Cmp(e.name, es[k].name) >= 0
    requires i < |es| ==> Cmp(e.name, es[i].name) < 0
    ensures Sorted(es[..i] + [e] + es[i..])
  {
    hide Cmp;
    var es' := es[..i] + [e] + es[i..];
    forall a, b | 0 <= a < b < |es'| ensures Cmp(es'[a].name, es'[b].name) <= 0 {
      if b == i {
        CmpEqual(e.name, es[a].name);
      } else if a == i && b > i + 1 {
        assert Cmp(es[i].name, es[b - 1].name) <= 0;
        CmpTrans(e.name, es[i].name, es[b - 1].name);
      }
    }
  }

  // ---------------------------------------------------------------------------------------
  // Comparing with a slot

  /** memcmp() over the length of the name, and the test for a longer name in the slot. */
  method CompareSlot(name: Name, slot: seq<byte>, size: nat, ghost e: Entry) returns (crc: int)
    requires IsSlot(slot, e, size) && ZeroFree(name) && |name| + 3 <= size
    ensures crc == Cmp(name, e.name)
  {
    hide Cmp;
    var k := 0;
    while k < |name| && name[k] == slot[2 + k]
      invariant k <= |name| && k <= |e.name| && name[..k] == e.name[..k]
    {
      assert k < |e.name| ==> slot[2 + k] == slot[2..2 + |e.name|][k];
      assert name[..k + 1] == name[..k] + [name[k]];
      assert k < |e.name| ==> e.name[..k + 1] == e.name[..k] + [e.name[k]];
      k := k + 1;
    }
    assert k < |e.name| ==> slot[2 + k] == slot[2..2 + |e.name|][k];
    CmpSkip(name, e.name, k);
    CmpHead(name[k..], e.name[k..]);
    if k < |name| {
      crc := if name[k] < slot[2 + k] then -1 else 1;
    } else {
      crc := if slot[2 + |name|] == 0 then 0 else -1;
    }
  }

  lemma CmpHead(a: Name, b: Name)
    ensures a == [] && b == [] ==> Cmp(a, b) == 0
    ensures a == [] && b != [] ==> Cmp(a, b) == -1
    ensures a != [] && b == [] ==> Cmp(a, b) == 1
    ensures a != [] && b != [] && a[0] != b[0] ==> Cmp(a, b) == if a[0] < b[0] then -1 else 1
  {
  }

  class NameTable {
    const slots: array<seq<byte>>
    const name_entry_size: nat
    var names_found: nat
    ghost var entries: seq<Entry>

    constructor (max: nat, name_entry_size: nat)
      ensures Valid() && entries == [] && slots.Length == max && this.name_entry_size == name_entry_size && fresh(slots)
    {
      slots := new seq<byte>[max](_ => []);
      this.name_entry_size := name_entry_size;
      names_found, entries := 0, [];
    }

    ghost predicate Valid()
      reads this, slots
    {
      && names_found == |entries| <= slots.Length
      && (forall i :: 0 <= i < names_found ==> IsSlot(slots[i], entries[i], name_entry_size))
      && Sorted(entries)
    }

    /** A definition: it goes before the first greater name. A name that is there already is an error
        unless duplicates are permitted. */
    method Insert(name: Name, number: nat, dupnames: bool) returns (ok: bool)
      requires Valid() && ZeroFree(name) && |name| + 3 <= name_entry_size && number < 65536
      requires names_found < slots.Length
      modifies this, slots
      ensures Valid()
      ensures ok <==> dupnames || forall k :: 0 <= k < |old(entries)| ==> old(entries)[k].name != name
      ensures !ok ==> entries == old(entries)
      ensures ok ==>
        exists i :: 0 <= i <= |old(entries)| && entries == old(entries)[..i] + [Entry(name, number)] + old(entries)[i..]
    {
      hide Cmp, Sorted, IsSlot;
      var i, crc := 0, 1;
      while i < names_found
        invariant 0 <= i <= names_found && unchanged(this) && unchanged(slots)
        invariant forall k :: 0 <= k < i ==> Cmp(name, entries[k].name) >= 0
        invariant !dupnames ==> forall k :: 0 <= k < i ==> entries[k].name != name
      {
        crc := CompareSlot(name, slots[i], name_entry_size, entries[i]);
        CmpEqual(name, entries[i].name);
        if crc == 0 && !dupnames {
          return false;
        }
        if crc < 0 {
          break;
        }
        i := i + 1;
      }
      ghost var e := Entry(name, number);
      SortedInsert(entries, i, e);
      Absent(entries, i, name);
      var slot := MakeSlot(name, number, name_entry_size);
      var n := names_found;
      forall k | i <= k <= n {
        slots[k] := if k == i then slot else slots[k - 1];
      }
      names_found := n + 1;
      entries := entries[..i] + [e] + entries[i..];
      ok := true;
    }

    /** pcre_get_stringnumber(): a number is found exactly if the name was defined. */
    method GetStringNumber(name: Name) returns (found: bool, number: nat)
      requires Valid() && ZeroFree(name)
      ensures found <==> exists k :: 0 <= k < |entries| && entries[k].name == name
      ensures found ==> Entry(name, number) in entries
    {
      hide Cmp;
      var bot, top := 0, names_found;
      while top > bot
        invariant 0 <= bot <= top <= names_found
        invariant forall k :: 0 <= k < bot ==> Cmp(name, entries[k].name) > 0
        invariant forall k :: top <= k < names_found ==> Cmp(name, entries[k].name) < 0
      {
        var mid := (top + bot) / 2;
        var c := StrCmp(name, slots[mid], name_entry_size, entries[mid]);
        CmpEqual(name, entries[mid].name);
        if c == 0 {
          return true, NumberIn(slots[mid]);
        }
        Halves(entries, mid, name);
        if c > 0 {
          bot := mid + 1;
        } else {
          top := mid;
        }
      }
      forall k | 0 <= k < |entries| ensures entries[k].name != name {
        CmpEqual(name, entries[k].name);
      }
      return false, 0;
    }

    /** pcre_get_stringtable_entries(): all the entries of a name, from first to last. */
    method GetEntries(name: Name) returns (found: bool, first: nat, last: nat)
      requires Valid() && ZeroFree(name)
      ensures found <==> exists k :: 0 <= k < |entries| && entries[k].name == name
      ensures found ==>
        first <= last < |entries| && forall k :: 0 <= k < |entries| ==>
          (entries[k].name == name <==> first <= k <= last)
    {
      hide Cmp;
      var bot, top := 0, names_found;
      first, last := 0, 0;
      while top > bot
        invariant 0 <= bot <= top <= names_found
        invariant forall k :: 0 <= k < bot ==> Cmp(name, entries[k].name) > 0
        invariant forall k :: top <= k < names_found ==> Cmp(name, entries[k].name) < 0
      {
        var mid := (top + bot) / 2;
        var c := StrCmp(name, slots[mid], name_entry_size, entries[mid]);
        CmpEqual(name, entries[mid].name);
        if c == 0 {
          first, last := Widen(name, mid);
          return true, first, last;
        }
        Halves(entries, mid, name);
        if c > 0 {
          bot := mid + 1;
        } else {
          top := mid;
        }
      }
      forall k | 0 <= k < |entries| ensures entries[k].name != name {
        CmpEqual(name, entries[k].name);
      }
      found := false;
    }

    /** From one entry of a name to the first and the last one. */
    method Widen(name: Name, mid: nat) returns (first: nat, last: nat)
      requires Valid() && ZeroFree(name) && mid < |entries| && entries[mid].name == name
      ensures first <= last < |entries|
      ensures forall k :: 0 <= k < |entries| ==> (entries[k].name == name <==> first <= k <= last)
    {
      hide Cmp;
      first, last := mid, mid;
      while first > 0
        invariant first <= mid && forall k :: first <= k <= mid ==> entries[k].name == name
      {
        var c := StrCmp(name, slots[first - 1], name_entry_size, entries[first - 1]);
        CmpEqual(name, entries[first - 1].name);
        if c != 0 {
          break;
        }
        first := first - 1;
      }
      while last < names_found - 1
        invariant mid <= last < names_found && forall k :: mid <= k <= last ==> entries[k].name == name
      {
        var c := StrCmp(name, slots[last + 1], name_entry_size, entries[last + 1]);
        CmpEqual(name, entries[last + 1].name);
        if c != 0 {
          break;
        }
        last := last + 1;
      }
      Run(entries, first, last, name);
    }
  }

  method MakeSlot(name: Name, number: nat, size: nat) returns (slot: seq<byte>)
    requires ZeroFree(name) && |name| + 3 <= size && number < 65536
    ensures IsSlot(slot, Entry(name, number), size)
  {
    slot := [number / 256, number % 256] + name + [0] + seq(size - 3 - |name|, _ => 0);
  }

  /** strcmp() with the name in a slot. */
  method StrCmp(name: Name, slot: seq<byte>, size: nat, ghost e: Entry) returns (c: int)
    requires IsSlot(slot, e, size) && ZeroFree(name)
    ensures c == Cmp(name, e.name)
  {
    hide Cmp;
    var k := 0;
    while k < |name| && name[k] == slot[2 + k]
      invariant k <= |name| && k <= |e.name| && name[..k] == e.name[..k]
    {
      assert k < |e.name| ==> slot[2 + k] == slot[2..2 + |e.name|][k];
      assert name[..k + 1] == name[..k] + [name[k]];
      assert k < |e.name| ==> e.name[..k + 1] == e.name[..k] + [e.name[k]];
      k := k + 1;
    }
    assert k < |e.name| ==> slot[2 + k] == slot[2..2 + |e.name|][k];
    CmpSkip(name, e.name, k);
    CmpHead(name[k..], e.name[k..]);
    var x := if k < |name| then name[k] else 0;
    c := if x == slot[2 + k] then 0 else if x < slot[2 + k] then -1 else 1;
  }

  /** Before the first greater name no equal name means no equal name at all. */
  lemma {:induction false} Absent(es: seq<Entry>, i: nat, name: Name)
    requires Sorted(es) && i <= |es| && (i < |es| ==> Cmp(name, es[i].name) < 0)
    ensures forall k :: i <= k < |es| ==> es[k].name != name
  {
    hide Cmp;
    forall k | i <= k < |es| ensures es[k].name != name {
      CmpEqual(name, es[k].name);
      if k > i {
        CmpTrans(name, es[i].name, es[k].name);
      }
    }
  }

  /** What the entry in the middle says about those before and after it. */
  lemma {:induction false} Halves(es: seq<Entry>, mid: nat, name: Name)
    requires Sorted(es) && mid < |es|
    ensures Cmp(name, es[mid].name) > 0 ==> forall k :: 0 <= k <= mid ==> Cmp(name, es[k].name) > 0
    ensures Cmp(name, es[mid].name) < 0 ==> forall k :: mid <= k < |es| ==> Cmp(name, es[k].name) < 0
  {
    hide Cmp;
    CmpEqual(name, es[mid].name);
    if Cmp(name, es[mid].name) > 0 {
      forall k | 0 <= k <= mid ensures Cmp(name, es[k].name) > 0 {
        if k < mid {
          CmpTrans(es[k].name, es[mid].name, name);
          CmpEqual(es[k].name, name);
        }
      }
    }
    if Cmp(name, es[mid].name) < 0 {
      forall k | mid <= k < |es| ensures Cmp(name, es[k].name) < 0 {
        if k > mid {
          CmpTrans(name, es[mid].name, es[k].name);
        }
      }
    }
  }

  /** The entries of one name are a run. */
  lemma {:induction false} Run(es: seq<Entry>, first: nat, last: nat, name: Name)
    requires Sorted(es) && first <= last < |es| && es[first].name == name && es[last].name == name
    requires forall k :: first <= k <= last ==> es[k].name == name
    requires first > 0 ==> es[first - 1].name != name
    requires last < |es| - 1 ==> es[last + 1].name != name
    ensures forall k :: 0 <= k < |es| ==> (es[k].name == name <==> first <= k <= last)
  {
    hide Cmp;
    if first > 0 {
      CmpEqual(name, es[first - 1].name);
      assert Cmp(es[first - 1].name, es[first].name) <= 0;
      Halves(es, first - 1, name);
    }
    if last < |es| - 1 {
      CmpEqual(name, es[last + 1].name);
      assert Cmp(es[last].name, es[last + 1].name) <= 0;
      Halves(es, last + 1, name);
    }
    forall k | 0 <= k < |es| ensures es[k].name == name <==> first <= k <= last {
      CmpEqual(name, es[k].name);
    }
  }
}
