/** `sys.path`: the interpreter's module search path, a process-wide list
    that the core appends to and deletes from. Entries are strings, or
    `None` when `None` was appended. */
module PySys {
  import opened PyValues

  type Entry = Option<string>

  /** `s.index(e)`: the first position holding `e`. */
  function IndexOf(s: seq<Entry>, e: Entry): (i: nat)
    requires e in s
    ensures i < |s| && s[i] == e
    ensures forall j :: 0 <= j < i ==> s[j] != e
  {
    if s[0] == e then 0 else 1 + IndexOf(s[1..], e)
  }

  /** `del s[s.index(e)]`: one entry shorter, and exactly one copy of `e`
      is gone. */
  function RemoveFirst(s: seq<Entry>, e: Entry): (r: seq<Entry>)
    requires e in s
    ensures |r| == |s| - 1
    ensures multiset(r) + multiset{e} == multiset(s)
  {
    var i := IndexOf(s, e);
    assert s == s[..i] + [e] + s[i + 1..];
    s[..i] + s[i + 1..]
  }

  /** Appending an entry that was not there and deleting its first
      occurrence gives the original path back. */
  lemma RemoveFirstRestores(s: seq<Entry>, e: Entry)
    requires e !in s
    ensures RemoveFirst(s + [e], e) == s
  {
    var t := s + [e];
    assert t[..|s|] == s;
  }

  lemma {:induction false} IndexOfAppend(s: seq<Entry>, e: Entry, x: Entry)
    requires e in s
    ensures IndexOf(s + [x], e) == IndexOf(s, e)
  {
    if s[0] != e {
      assert (s + [x])[1..] == s[1..] + [x];
      IndexOfAppend(s[1..], e, x);
    }
  }

  /** If the entry was already there, its earlier copy is the one deleted:
      the entry moves to the end and the path keeps the same entries. */
  lemma RemoveFirstMovesToEnd(s: seq<Entry>, e: Entry)
    requires e in s
    ensures RemoveFirst(s + [e], e) == RemoveFirst(s, e) + [e]
    ensures multiset(RemoveFirst(s + [e], e)) == multiset(s)
  {
    var i := IndexOf(s, e);
    IndexOfAppend(s, e, e);
    var t := s + [e];
    assert t[..i] == s[..i];
    assert t[i + 1..] == s[i + 1..] + [e];
  }

  class SysPath {
    var entries: seq<Entry>

    constructor (initial: seq<Entry>)
      ensures entries == initial
    {
      entries := initial;
    }

    /** `sys.path.append(e)` */
    method Append(e: Entry)
      modifies this
      ensures entries == old(entries) + [e]
    {
      entries := entries + [e];
    }

    /** `del sys.path[sys.path.index(e)]`; the core calls it only right
        after appending `e`, so `index` finds it. */
    method DeleteFirst(e: Entry)
      requires e in entries
      modifies this
      ensures entries == RemoveFirst(old(entries), e)
    {
      var i := IndexOf(entries, e);
      entries := entries[..i] + entries[i + 1..];
    }
  }
}
