/** Growing buffers, and the arena of interned strings built on one. */
module Arena {
  import opened Words
  import opened Wrappers
  import opened CStrings

  const START_SIZE := 256
  const CHUNK_SIZE := 64

  /** A buffer that appends and overwrites in place and moves to a larger array when it is full. */
  class Buffer<T(0)> {
    var data: array<T>
    var size: nat

    ghost predicate Valid()
      reads this
    {
      size <= data.Length
    }

    ghost function Contents(): seq<T>
      reads this, data
      requires Valid()
    {
      data[..size]
    }

    constructor ()
      ensures Valid() && Contents() == [] && fresh(data) && data.Length == 256
    {
      data := new T[START_SIZE];
      size := 0;
    }

    /** Makes room for `n` more elements, growing by whole chunks. */
    method Extend(n: nat)
      requires Valid()
      modifies this`data
      ensures Valid() && Contents() == old(Contents()) && size + n <= data.Length
      ensures data == old(data) || fresh(data)
      ensures data.Length % 64 == old(data.Length) % 64
      ensures data.Length < size + n + 64 || data == old(data)
    {
      if data.Length < size + n {
        var capacity := data.Length;
        while capacity < size + n
          invariant old(data.Length) <= capacity < size + n + CHUNK_SIZE
          invariant capacity % CHUNK_SIZE == old(data.Length) % CHUNK_SIZE
        {
          capacity := capacity + CHUNK_SIZE;
        }
        var bigger := new T[capacity];
        forall i | 0 <= i < size {
          bigger[i] := data[i];
        }
        data := bigger;
      }
    }

    /** Appends, and returns the offset of what was appended. */
    method Append(items: seq<T>) returns (offset: nat)
      requires Valid()
      modifies this, data
      ensures Valid() && offset == |old(Contents())| && Contents() == old(Contents()) + items
      ensures data == old(data) || fresh(data)
    {
      offset := size;
      Extend(|items|);
      forall i | 0 <= i < |items| {
        data[size + i] := items[i];
      }
      size := size + |items|;
    }

    /** Overwrites part of what was appended earlier. */
    method Replace(offset: nat, items: seq<T>)
      requires Valid() && offset + |items| <= |Contents()|
      modifies data
      ensures Contents() == Patched(old(Contents()), offset, items)
    {
      forall i | 0 <= i < |items| {
        data[offset + i] := items[i];
      }
    }
  }

  function Patched<T>(s: seq<T>, offset: nat, items: seq<T>): seq<T>
    requires offset + |items| <= |s|
  {
    s[..offset] + items + s[offset + |items|..]
  }

  /** The table after adding a string: unchanged if it is there, else with the string at the end. */
  function Intern(t: StringTable, s: string): StringTable
  {
    if s in t.offsets then t
    else StringTable(t.data + s + ['\0'], t.offsets[s := Wrap(|t.data|)])
  }

  /** `t'` has everything `t` has, at the same offsets. */
  ghost predicate Extends(t': StringTable, t: StringTable) {
    && t.offsets.Keys <= t'.offsets.Keys
    && (forall s <- t.offsets :: t'.offsets[s] == t.offsets[s])
    && t.data <= t'.data
  }

  /** Interning keeps every string readable where it was, and adds the new one. */
  lemma InternKeeps(t: StringTable, s: string)
    requires ValidTable(t) && NulFree(s) && |t.data| < WORD_LIMIT
    ensures ValidTable(Intern(t, s)) && Extends(Intern(t, s), t) && s in Intern(t, s).offsets
  {
    hide StoredAt;
    var t' := Intern(t, s);
    if s !in t.offsets {
      StoredAtEnd(t.data, s);
      forall r <- t'.offsets ensures NulFree(r) && StoredAt(t'.data, t'.offsets[r], r) {
        if r != s {
          StoredPrefix(t.data, s + ['\0'], t.offsets[r], r);
          assert t'.data == t.data + (s + ['\0']);
        }
      }
    }
  }

  lemma StoredAtEnd(data: string, s: string)
    ensures StoredAt(data + s + ['\0'], |data|, s)
  {
    assert (data + s + ['\0'])[|data|..|data| + |s|] == s;
  }

  lemma StoredPrefix(data: string, more: string, offset: nat, s: string)
    requires StoredAt(data, offset, s)
    ensures StoredAt(data + more, offset, s)
  {
    assert (data + more)[offset..offset + |s|] == data[offset..offset + |s|];
  }

  /** Distinct strings have distinct offsets. */
  lemma OffsetsDiffer(t: StringTable, s: string, r: string)
    requires ValidTable(t) && s in t.offsets && r in t.offsets && s != r
    ensures t.offsets[s] != t.offsets[r]
  {
    StringAtStored(t.data, t.offsets[s], s);
    StringAtStored(t.data, t.offsets[r], r);
  }

  function InternAll(t: StringTable, strings: seq<string>): StringTable
    decreases |strings|
  {
    if strings == [] then t else InternAll(Intern(t, strings[0]), strings[1..])
  }

  lemma {:induction false} InternAllKeeps(t: StringTable, strings: seq<string>)
    requires ValidTable(t) && (forall s <- strings :: NulFree(s)) && |InternAll(t, strings).data| < WORD_LIMIT
    ensures var t' := InternAll(t, strings);
            ValidTable(t') && Extends(t', t) && forall s <- strings :: s in t'.offsets
    ensures |t.data| < WORD_LIMIT
    decreases |strings|
  {
    InternAllGrows(t, strings);
    hide ValidTable;
    if strings != [] {
      InternAllGrows(Intern(t, strings[0]), strings[1..]);
      InternKeeps(t, strings[0]);
      InternAllKeeps(Intern(t, strings[0]), strings[1..]);
    }
  }

  lemma {:induction false} InternAllGrows(t: StringTable, strings: seq<string>)
    ensures |t.data| <= |InternAll(t, strings).data|
    decreases |strings|
  {
    if strings != [] {
      InternAllGrows(Intern(t, strings[0]), strings[1..]);
    }
  }

  lemma {:induction false} InternAllAppend(t: StringTable, a: seq<string>, b: seq<string>)
    ensures InternAll(t, a + b) == InternAll(InternAll(t, a), b)
    decreases |a|
  {
    if a == [] {
      assert a + b == b;
    } else {
      assert (a + b)[1..] == a[1..] + b;
      InternAllAppend(Intern(t, a[0]), a[1..], b);
    }
  }

  /** Whatever is added later, the string read at an offset once returned stays the one that was added. */
  lemma InternedForever(t: StringTable, s: string, later: seq<string>)
    requires ValidTable(t) && s in t.offsets
    requires (forall r <- later :: NulFree(r)) && |InternAll(t, later).data| < WORD_LIMIT
    ensures GetString(InternAll(t, later), t.offsets[s]) == Some(s)
  {
    InternAllKeeps(t, later);
    GetInterned(InternAll(t, later), s);
  }

  /** The data section: the characters of the strings, and the intern map. */
  class StringArena {
    const buffer: Buffer<char>
    var offsets: map<string, word>

    ghost predicate Valid()
      reads this, buffer, buffer.data
    {
      buffer.Valid() && ValidTable(Table()) && buffer.size < WORD_LIMIT
    }

    ghost function Table(): StringTable
      reads this, buffer, buffer.data
      requires buffer.Valid()
    {
      StringTable(buffer.Contents(), offsets)
    }

    constructor ()
      ensures Valid() && Table() == StringTable("", map[]) && fresh(buffer) && fresh(buffer.data)
    {
      buffer := new Buffer<char>();
      offsets := map[];
    }

    /** Adds a string unless it is there already; returns its offset either way. */
    method AddString(s: string) returns (offset: word)
      requires Valid() && NulFree(s) && |Intern(Table(), s).data| < WORD_LIMIT
      modifies this, buffer, buffer.data
      ensures Valid() && Table() == Intern(old(Table()), s)
      ensures s in offsets && offset == offsets[s]
      ensures buffer.data == old(buffer.data) || fresh(buffer.data)
    {
      hide ValidTable, Extends;
      InternKeeps(Table(), s);
      if s in offsets {
        return offsets[s];
      }
      offset := buffer.Append(s + ['\0']);
      assert buffer.Contents() == old(buffer.Contents()) + s + ['\0'];
      offsets := offsets[s := offset];
    }

    method Get(offset: word) returns (r: Option<string>)
      requires Valid()
      ensures r == GetString(Table(), offset)
    {
      if offset > buffer.size {
        return None;
      }
      var s, i := "", offset as nat;
      while i < buffer.size && buffer.data[i] != '\0'
        invariant offset <= i <= buffer.size
        invariant s + StringAt(Table().data, i) == StringAt(Table().data, offset)
      {
        s := s + [buffer.data[i]];
        i := i + 1;
      }
      assert s + "" == s;
      r := if s in offsets then Some(s) else None;
    }

    method Find(s: string) returns (r: Option<word>)
      requires Valid()
      ensures r == if s in Table().offsets then Some(Table().offsets[s]) else None
    {
      r := if s in offsets then Some(offsets[s]) else None;
    }
  }
}
