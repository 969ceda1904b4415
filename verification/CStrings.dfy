/** NUL-terminated strings and the string comparisons of the C library that the machine calls. */
module CStrings {
  import opened Words
  import opened Wrappers

  predicate NulFree(s: string) {
    '\0' !in s
  }

  /** `strstr(s, t) != NULL` */
  predicate Occurs(t: string, s: string) {
    exists i :: 0 <= i <= |s| && OccursAt(t, s, i)
  }

  predicate OccursAt(t: string, s: string, i: nat) {
    i + |t| <= |s| && s[i..i + |t|] == t
  }

  /** `strstr(s, t) == s`: the first occurrence is at the start. */
  predicate HasPrefix(s: string, t: string) {
    |t| <= |s| && s[..|t|] == t
  }

  /** The first `n` characters, or all if there are fewer. */
  function Cut(s: string, n: nat): string {
    if n <= |s| then s[..n] else s
  }

  predicate HasSuffix(s: string, t: string) {
    |t| <= |s| && s[|s| - |t|..] == t
  }

  function LowerChar(c: char): char {
    if 'A' <= c <= 'Z' then c - 'A' + 'a' else c
  }

  /** `tolower` on every character. */
  function Lower(s: string): (r: string)
    ensures |r| == |s|
  {
    seq(|s|, i requires 0 <= i < |s| => LowerChar(s[i]))
  }

  /** The C string that starts at `offset`: everything before the next NUL. */
  function StringAt(data: string, offset: nat): (s: string)
    requires offset <= |data|
    ensures NulFree(s)
    decreases |data| - offset
  {
    if offset == |data| || data[offset] == '\0' then "" else [data[offset]] + StringAt(data, offset + 1)
  }

  /** `s` is stored at `offset`, with its terminator. */
  predicate StoredAt(data: string, offset: nat, s: string) {
    offset + |s| < |data| && data[offset..offset + |s|] == s && data[offset + |s|] == '\0'
  }

  lemma {:induction false} StringAtStored(data: string, offset: nat, s: string)
    requires NulFree(s) && StoredAt(data, offset, s)
    ensures StringAt(data, offset) == s
    decreases |s|
  {
    if s == "" {
    } else {
      assert data[offset] == data[offset..offset + |s|][0] == s[0];
      assert data[offset + 1..offset + |s|] == data[offset..offset + |s|][1..] == s[1..];
      StringAtStored(data, offset + 1, s[1..]);
      assert s == [s[0]] + s[1..];
    }
  }

  /** The data section: the interned strings with their offsets. */
  datatype StringTable = StringTable(data: string, offsets: map<string, word>)

  /** Every interned string is stored, terminated, at its offset. */
  ghost predicate ValidTable(t: StringTable) {
    forall s <- t.offsets :: NulFree(s) && StoredAt(t.data, t.offsets[s], s)
  }

  /** Reads the string at an offset, provided that a string with this content was interned. */
  function GetString(t: StringTable, offset: nat): Option<string> {
    if offset > |t.data| then None
    else
      var s := StringAt(t.data, offset);
      if s in t.offsets then Some(s) else None
  }

  /** Reading back at the offset of an interned string gives that string. */
  lemma GetInterned(t: StringTable, s: string)
    requires ValidTable(t) && s in t.offsets
    ensures GetString(t, t.offsets[s]) == Some(s)
  {
    StringAtStored(t.data, t.offsets[s], s);
  }
}
