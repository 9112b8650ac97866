/** The few .NET library operations the event bus core relies on, with the
    behaviour the runtime documents for them: `String.IsNullOrEmpty`,
    `String.TrimStart(char[])` / `String.TrimEnd(char[])` (which strip any
    run of characters drawn from the given SET, not a literal prefix or
    suffix), `List<T>.Remove` (first occurrence only) and LINQ's
    `SingleOrDefault` with a name predicate (which throws when more than one
    element matches). */
module DotNet {
  import opened Common

  /** `String.IsNullOrEmpty`, with `None` standing for a null reference. */
  predicate IsNullOrEmpty(s: Option<string>)
  {
    s.None? || s.value == ""
  }

  // ---------------------------------------------------------------------
  // Character-set trimming
  // ---------------------------------------------------------------------

  /** The length of the longest prefix of `s` made only of characters of `chars`. */
  function LeadingCount(s: string, chars: string): (k: nat)
    ensures k <= |s|
    ensures forall i :: 0 <= i < k ==> s[i] in chars
    ensures k < |s| ==> s[k] !in chars
  {
    if s == [] || s[0] !in chars then 0 else 1 + LeadingCount(s[1..], chars)
  }

  /** The length of the longest suffix of `s` made only of characters of `chars`. */
  function TrailingCount(s: string, chars: string): (k: nat)
    ensures k <= |s|
    ensures forall i :: |s| - k <= i < |s| ==> s[i] in chars
    ensures k < |s| ==> s[|s| - 1 - k] !in chars
  {
    if s == [] || s[|s| - 1] !in chars then 0 else 1 + TrailingCount(s[..|s| - 1], chars)
  }

  /** `s.TrimStart(chars)` for a non-empty character array `chars`: what is
      left is a suffix of `s`, everything cut off belongs to `chars`, and the
      cut is maximal. (With an empty array .NET trims white space instead;
      the event bus never passes one.) */
  function TrimStart(s: string, chars: string): (r: string)
    requires chars != []
    ensures |r| <= |s| && r == s[|s| - |r|..]
    ensures forall i :: 0 <= i < |s| - |r| ==> s[i] in chars
    ensures r == [] || r[0] !in chars
  {
    s[LeadingCount(s, chars)..]
  }

  /** `s.TrimEnd(chars)` for a non-empty character array `chars`: what is
      left is a prefix of `s`, everything cut off belongs to `chars`, and the
      cut is maximal. */
  function TrimEnd(s: string, chars: string): (r: string)
    requires chars != []
    ensures |r| <= |s| && r == s[..|r|]
    ensures forall i :: |r| <= i < |s| ==> s[i] in chars
    ensures r == [] || r[|r| - 1] !in chars
  {
    s[..|s| - TrailingCount(s, chars)]
  }

  /** A string that starts with no character of `chars` is left alone by
      TrimStart; in particular trimming twice is trimming once. */
  lemma TrimStartNoop(s: string, chars: string)
    requires chars != []
    requires s == [] || s[0] !in chars
    ensures TrimStart(s, chars) == s
  {
    assert LeadingCount(s, chars) == 0;
  }

  /** A string that ends with no character of `chars` is left alone by TrimEnd. */
  lemma TrimEndNoop(s: string, chars: string)
    requires chars != []
    requires s == [] || s[|s| - 1] !in chars
    ensures TrimEnd(s, chars) == s
  {
    assert TrailingCount(s, chars) == 0;
  }

  /** TrimStart cuts exactly at `n` when everything before `n` belongs to
      `chars` and the character at `n` does not. */
  lemma TrimStartAt(s: string, chars: string, n: nat)
    requires chars != []
    requires n <= |s|
    requires n == |s| || s[n] !in chars
    requires forall k :: 0 <= k < n ==> s[k] in chars
    ensures TrimStart(s, chars) == s[n..]
  {
  }

  /** TrimEnd cuts exactly at `n` when everything from `n` on belongs to
      `chars` and the character before `n` does not. */
  lemma TrimEndAt(s: string, chars: string, n: nat)
    requires chars != []
    requires n <= |s|
    requires n == 0 || s[n - 1] !in chars
    requires forall k :: n <= k < |s| ==> s[k] in chars
    ensures TrimEnd(s, chars) == s[..n]
  {
  }

  /** Trimming the characters of `chars` off `chars + s` leaves `s`, when
      `s` does not itself start with one of them. */
  lemma TrimStartOfPrefixed(chars: string, s: string)
    requires chars != []
    requires s == [] || s[0] !in chars
    ensures TrimStart(chars + s, chars) == s
  {
    var t := chars + s;
    forall k | 0 <= k < |chars| ensures t[k] in chars {
      assert t[k] == chars[k];
    }
    assert |chars| < |t| ==> t[|chars|] == s[0];
    TrimStartAt(t, chars, |chars|);
    assert t[|chars|..] == s;
  }

  /** Trimming the characters of `chars` off `s + chars` leaves `s`, when
      `s` does not itself end with one of them. */
  lemma TrimEndOfSuffixed(s: string, chars: string)
    requires chars != []
    requires s == [] || s[|s| - 1] !in chars
    ensures TrimEnd(s + chars, chars) == s
  {
    var t := s + chars;
    forall k | |s| <= k < |t| ensures t[k] in chars {
      assert t[k] == chars[k - |s|];
    }
    assert |s| > 0 ==> t[|s| - 1] == s[|s| - 1];
    TrimEndAt(t, chars, |s|);
    assert t[..|s|] == s;
  }

  // ---------------------------------------------------------------------
  // Lists
  // ---------------------------------------------------------------------

  predicate NoDuplicates<T(==)>(s: seq<T>)
  {
    forall i, j :: 0 <= i < j < |s| ==> s[i] != s[j]
  }

  /** The position of the first occurrence of `x` in `s`. */
  function IndexOf<T(==)>(s: seq<T>, x: T): (i: nat)
    requires x in s
    ensures i < |s| && s[i] == x && x !in s[..i]
  {
    if s[0] == x then 0 else 1 + IndexOf(s[1..], x)
  }

  /** `List<T>.Remove(x)`: drops the first element equal to `x`, keeping the
      order of the others; a list without `x` is returned unchanged. */
  function RemoveFirst<T(==)>(s: seq<T>, x: T): (r: seq<T>)
    ensures x !in s ==> r == s
    ensures x in s ==> r == s[..IndexOf(s, x)] + s[IndexOf(s, x) + 1..]
  {
    if s == [] then []
    else if s[0] == x then
      assert s == [s[0]] + s[1..];
      s[1..]
    else
      var tail := s[1..];
      assert s == [s[0]] + tail;
      if x in tail then
        var k := IndexOf(tail, x);
        assert IndexOf(s, x) == 1 + k;
        assert s[..1 + k] == [s[0]] + tail[..k];
        assert s[2 + k..] == tail[k + 1..];
        [s[0]] + RemoveFirst(tail, x)
      else
        [s[0]] + RemoveFirst(tail, x)
  }

  /** The tail of a list without duplicates has none either, and lacks the head. */
  lemma NoDuplicatesTail<T>(s: seq<T>)
    requires s != [] && NoDuplicates(s)
    ensures NoDuplicates(s[1..]) && s[0] !in s[1..]
  {
    var tail := s[1..];
    forall i, j | 0 <= i < j < |tail| ensures tail[i] != tail[j] {
      assert tail[i] == s[i + 1] && tail[j] == s[j + 1];
    }
    forall j | 0 <= j < |tail| ensures tail[j] != s[0] {
      assert tail[j] == s[j + 1];
    }
  }

  /** Removing `x` keeps every other element and adds none. */
  lemma {:induction false} RemoveFirstElements<T>(s: seq<T>, x: T)
    ensures forall y :: y in RemoveFirst(s, x) ==> y in s
    ensures forall y :: y in s && y != x ==> y in RemoveFirst(s, x)
  {
    if s != [] && s[0] != x {
      RemoveFirstElements(s[1..], x);
      assert s == [s[0]] + s[1..];
    }
  }

  /** In a list without duplicates, removing `x` leaves a list without
      duplicates in which `x` no longer occurs. */
  lemma {:induction false} RemoveFirstWithoutDuplicates<T>(s: seq<T>, x: T)
    requires NoDuplicates(s)
    ensures NoDuplicates(RemoveFirst(s, x))
    ensures x !in RemoveFirst(s, x)
  {
    if s != [] {
      NoDuplicatesTail(s);
      var tail := s[1..];
      if s[0] != x {
        RemoveFirstWithoutDuplicates(tail, x);
        RemoveFirstElements(tail, x);
        var rest := RemoveFirst(tail, x);
        var r := [s[0]] + rest;
        assert s[0] !in rest;
        forall i, j | 0 <= i < j < |r| ensures r[i] != r[j] {
          if i == 0 {
            assert r[j] == rest[j - 1];
          } else {
            assert r[i] == rest[i - 1] && r[j] == rest[j - 1];
          }
        }
      }
    }
  }

  /** Removing an element just appended to a list that did not contain it
      gives the list back. */
  lemma RemoveFirstAppended<T>(s: seq<T>, x: T)
    requires x !in s
    ensures RemoveFirst(s + [x], x) == s
  {
    var t := s + [x];
    assert t[..|s|] == s && t[|s|] == x;
    var k := IndexOf(t, x);
    assert k == |s|;
    assert t[..k] + t[k + 1..] == s;
  }

  // ---------------------------------------------------------------------
  // SingleOrDefault(c => c.Name == name) over a list of types
  // ---------------------------------------------------------------------

  /** How many entries of `ts` have the short name `name`. */
  function CountNamed(ts: seq<TypeRef>, name: string): (n: nat)
    ensures n <= |ts|
    ensures n == 0 <==> forall t :: t in ts ==> t.name != name
  {
    if ts == [] then 0
    else (if ts[0].name == name then 1 else 0) + CountNamed(ts[1..], name)
  }

  /** When exactly one entry carries `name`, any two entries carrying it are the same. */
  lemma {:induction false} CountNamedOne(ts: seq<TypeRef>, name: string, t: TypeRef, u: TypeRef)
    requires CountNamed(ts, name) == 1
    requires t in ts && t.name == name && u in ts && u.name == name
    ensures t == u
  {
    assert ts == [ts[0]] + ts[1..];
    if ts[0].name == name {
      assert CountNamed(ts[1..], name) == 0;
    } else {
      CountNamedOne(ts[1..], name, t, u);
    }
  }

  /** `ts.SingleOrDefault(c => c.Name == name)`: no match gives null, one
      match gives that element, two or more raise InvalidOperationException. */
  function SingleOrDefaultNamed(ts: seq<TypeRef>, name: string): (r: Result<Option<TypeRef>>)
    ensures r == Ok(None) <==> CountNamed(ts, name) == 0
    ensures r.Ok? && r.value.Some? <==> CountNamed(ts, name) == 1
    ensures r.Ok? && r.value.Some? ==> r.value.value in ts && r.value.value.name == name
    ensures r.Err? <==> CountNamed(ts, name) >= 2
    ensures r.Err? ==> r.error == InvalidOperationException
  {
    if ts == [] then Ok(None)
    else
      var rest := SingleOrDefaultNamed(ts[1..], name);
      if ts[0].name != name then rest
      else if rest == Ok(None) then Ok(Some(ts[0]))
      else Err(InvalidOperationException)
  }
}
