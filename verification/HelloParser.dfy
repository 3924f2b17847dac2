/** The body parser as it runs: cursor reads, a growing type list, and sort-then-scan (crates/sni_router/src/protocol/hello.rs). */
module HelloParser {
  import opened Wrappers
  import opened Bytes
  import opened Names
  import opened Protocol
  import opened Cursor
  import opened Hello

  const INLINE_EXTENSIONS := 32

  /** Extension types seen so far: inline until it is full, then in `heap`. */
  class SeenTypes {
    const inline: array<u16>
    var len: nat
    var heap: Option<seq<u16>>

    ghost predicate Valid()
      reads this
    {
      inline.Length == INLINE_EXTENSIONS && len <= INLINE_EXTENSIONS
    }

    function Types(): seq<u16>
      requires Valid()
      reads this, inline
    {
      if heap.Some? then heap.value else inline[..len]
    }

    constructor ()
      ensures Valid() && fresh(inline) && Types() == []
    {
      inline := new u16[INLINE_EXTENSIONS](_ => 0);
      len, heap := 0, None;
    }

    method Push(value: u16)
      requires Valid()
      modifies this, inline
      ensures Valid() && Types() == old(Types()) + [value]
    {
      if heap.Some? {
        heap := Some(heap.value + [value]);
      } else if len < INLINE_EXTENSIONS {
        inline[len] := value;
        len := len + 1;
      } else {
        heap := Some(inline[..len] + [value]);
      }
    }

    /** Sorts the list in place, wherever it lives. */
    method Sort()
      requires Valid()
      modifies this, inline
      ensures Valid() && Sorted(Types()) && multiset(Types()) == multiset(old(Types()))
    {
      var sorted := SortedCopy(Types());
      if heap.Some? {
        heap := Some(sorted);
      } else {
        assert |sorted| == |multiset(sorted)| == |multiset(inline[..len])| == len;
        forall i | 0 <= i < len {
          inline[i] := sorted[i];
        }
        assert inline[..len] == sorted;
      }
    }
  }

  // ----- Duplicates by sorting ------------------------------------------------

  predicate Sorted(s: seq<u16>) {
    forall i, j :: 0 <= i < j < |s| ==> s[i] <= s[j]
  }

  /** Insertion into a sorted list keeps it sorted. */
  method InsertSorted(s: seq<u16>, value: u16) returns (t: seq<u16>)
    requires Sorted(s)
    ensures Sorted(t) && multiset(t) == multiset(s) + multiset{value}
  {
    var k := |s|;
    while k > 0 && s[k - 1] > value
      invariant 0 <= k <= |s|
      invariant forall i :: k <= i < |s| ==> s[i] > value
    {
      k := k - 1;
    }
    t := s[..k] + [value] + s[k..];
    InsertedAt(s, k, value);
  }

  lemma InsertedAt(s: seq<u16>, k: nat, value: u16)
    requires k <= |s|
    ensures multiset(s[..k] + [value] + s[k..]) == multiset(s) + multiset{value}
  {
    assert s == s[..k] + s[k..];
  }

  method SortedCopy(s: seq<u16>) returns (t: seq<u16>)
    ensures Sorted(t) && multiset(t) == multiset(s)
  {
    t := [];
    for i := 0 to |s|
      invariant Sorted(t) && multiset(t) == multiset(s[..i])
    {
      t := InsertSorted(t, s[i]);
      assert s[..i + 1] == s[..i] + [s[i]];
    }
    assert s[..|s|] == s;
  }

  method HasEqualNeighbours(s: seq<u16>) returns (found: bool)
    ensures found <==> exists i :: 0 < i < |s| && s[i - 1] == s[i]
  {
    var i := 1;
    while i < |s|
      invariant i >= 1
      invariant forall k :: 0 < k < i && k < |s| ==> s[k - 1] != s[k]
    {
      if s[i - 1] == s[i] {
        return true;
      }
      i := i + 1;
    }
    found := false;
  }

  lemma {:induction false} CountAtMostOne(s: seq<u16>)
    ensures Distinct(s) <==> forall x :: multiset(s)[x] <= 1
  {
    if s != [] {
      var tail := s[1..];
      assert s == [s[0]] + tail;
      CountAtMostOne(tail);
      if Distinct(s) {
        assert forall i :: 0 <= i < |tail| ==> tail[i] == s[i + 1];
        assert s[0] !in tail;
      }
      if forall x :: multiset(s)[x] <= 1 {
        assert forall x :: multiset(tail)[x] <= multiset(s)[x];
        assert multiset(s)[s[0]] == 1 + multiset(tail)[s[0]];
        assert s[0] !in multiset(tail) && s[0] !in tail;
        forall i, j | 0 <= i < j < |s| ensures s[i] != s[j] {
          assert s[j] == tail[j - 1] && s[j] in tail;
        }
      }
    }
  }

  lemma EqualNeighbours(sorted: seq<u16>, i: nat, j: nat)
    requires Sorted(sorted) && i < j < |sorted| && sorted[i] == sorted[j]
    ensures exists k :: 0 < k < |sorted| && sorted[k - 1] == sorted[k]
  {
    var k := i + 1;
    assert sorted[i] <= sorted[k] <= sorted[j];
    assert sorted[k - 1] == sorted[k];
  }

  /** After sorting, a repeated type shows up as two equal neighbours, and only then. */
  lemma SortThenScan(types: seq<u16>, sorted: seq<u16>)
    requires Sorted(sorted) && multiset(sorted) == multiset(types)
    ensures Distinct(types) <==> !exists i :: 0 < i < |sorted| && sorted[i - 1] == sorted[i]
  {
    CountAtMostOne(types);
    CountAtMostOne(sorted);
    assert Distinct(types) <==> Distinct(sorted);
    if i :| 0 < i < |sorted| && sorted[i - 1] == sorted[i] {
      assert !Distinct(sorted);
    }
    forall i, j | 0 <= i < j < |sorted| && sorted[i] == sorted[j]
      ensures exists k :: 0 < k < |sorted| && sorted[k - 1] == sorted[k]
    {
      EqualNeighbours(sorted, i, j);
    }
  }

  // ----- The parsers ------------------------------------------------------------

  method ParseServerNameData(data: seq<byte>) returns (result: Result<Sni, ParseError>)
    ensures result == ParseServerName(data)
  {
    var outer := new Reader(data);
    var list := outer.Vec16();
    if list.None? || outer.remaining != [] || list.value == [] {
      return Failure(Malformed);
    }
    var reader := new Reader(list.value);
    var host: Sni := None;
    while reader.remaining != []
      invariant WalkNames(reader.remaining, host) == WalkNames(list.value, None)
      decreases |reader.remaining|
    {
      var kind := reader.U8();
      var name := reader.Vec16();
      if kind.None? || name.None? || name.value == [] {
        return Failure(Malformed);
      }
      if kind.value != NAME_TYPE_HOST_NAME {
        continue;
      }
      if host.Some? {
        return Failure(Malformed);
      }
      if !ValidUtf8(name.value) {
        return Failure(InvalidServerName(InvalidCharacter));
      }
      var parsed := ParseHostname(name.value);
      if parsed.Failure? {
        return Failure(InvalidServerName(parsed.error));
      }
      host := Some(parsed.value);
    }
    result := Success(host);
  }

  method ParseExtensionBlock(extensions: seq<byte>) returns (result: Result<Sni, ParseError>)
    ensures result == ParseExtensions(extensions)
  {
    var reader := new Reader(extensions);
    var seen := new SeenTypes();
    var sni: Sni := None;
    while reader.remaining != []
      invariant seen.Valid() && fresh(seen) && fresh(seen.inline)
      invariant WalkExtensions(reader.remaining, seen.Types(), sni) == WalkExtensions(extensions, [], None)
      decreases |reader.remaining|
    {
      var kind := reader.U16();
      if kind.None? {
        return Failure(Malformed);
      }
      var data := reader.Vec16();
      if data.None? {
        return Failure(Malformed);
      }
      seen.Push(kind.value);
      if kind.value == EXTENSION_SERVER_NAME {
        var found := ParseServerNameData(data.value);
        if found.Failure? {
          return found;
        }
        sni := found.value;
      }
    }
    ghost var types := seen.Types();
    seen.Sort();
    SortThenScan(types, seen.Types());
    var duplicate := HasEqualNeighbours(seen.Types());
    result := if duplicate then Failure(Malformed) else Success(sni);
  }

  method ParseClientHelloBody(body: seq<byte>) returns (result: Result<Sni, ParseError>)
    ensures result == ParseBody(body)
  {
    var reader := new Reader(body);
    var version := reader.U16();
    if version.None? || version.value / 0x100 != 3 {
      return Failure(Malformed);
    }
    var random := reader.Bytes(RANDOM_LEN);
    if random.None? {
      return Failure(Malformed);
    }
    var session := reader.Vec8();
    if session.None? || |session.value| > MAX_SESSION_ID_LEN {
      return Failure(Malformed);
    }
    var suites := reader.Vec16();
    if suites.None? || suites.value == [] || |suites.value| % 2 != 0 {
      return Failure(Malformed);
    }
    var compression := reader.Vec8();
    if compression.None? || compression.value == [] {
      return Failure(Malformed);
    }
    if reader.remaining == [] {
      return Success(None);
    }
    var extensions := reader.Vec16();
    if extensions.None? || reader.remaining != [] {
      return Failure(Malformed);
    }
    result := ParseExtensionBlock(extensions.value);
  }
}
