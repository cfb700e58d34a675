/** The sidebar's display helpers: a user's name and initials derived from
    the e-mail address (src/components/sidebar.tsx). */
module Sidebar {
  import opened Common
  import opened Strings

  /** The local part of an address: the text before the first '@'. */
  function LocalPart(email: string): (r: string)
    ensures r <= email && '@' !in r
  {
    Before(email, '@')
  }

  /** `emailToName`: the local part with its FIRST '.' turned into a space;
      "" for a missing or empty address. */
  function EmailToName(email: Option<string>): (r: string)
    ensures !Truthy(email) ==> r == ""
    ensures Truthy(email) ==> |r| == |LocalPart(email.value)| && '@' !in r
    ensures Truthy(email) ==>
      var local := LocalPart(email.value);
      var dot := |Before(local, '.')|;
      && (forall i :: 0 <= i < |r| && i != dot ==> r[i] == local[i])
      && ('.' in local ==> r[dot] == ' ')
  {
    if !Truthy(email) then ""
    else
      var local := LocalPart(email.value);
      ReplaceFirstAt(local, '.', ' ');
      ReplaceFirstAvoids(local, '.', ' ', '@');
      ReplaceFirst(local, '.', ' ')
  }

  /** The non-empty segments of `parts`, in order. */
  function NonEmpty(parts: seq<string>): (r: seq<string>)
    ensures |r| <= |parts|
    ensures forall k :: 0 <= k < |r| ==> r[k] != []
  {
    if parts == [] then []
    else (if parts[0] == [] then [] else [parts[0]]) + NonEmpty(parts[1..])
  }

  /** The filter keeps exactly the non-empty segments. */
  lemma {:induction false} NonEmptyMembers(parts: seq<string>)
    ensures forall p :: p in NonEmpty(parts) <==> p in parts && p != []
  {
    if parts != [] {
      NonEmptyMembers(parts[1..]);
      assert parts == [parts[0]] + parts[1..];
    }
  }

  /** `parts.map(s => s[0]).join("")`, as the code units of the result.
      `s[0]` is a string's first UTF-16 code unit, so a segment that starts
      above U+FFFF contributes only its high surrogate; `s[0]` of an empty
      segment is undefined, which `join` renders as nothing. */
  function Initials(parts: seq<string>): (r: seq<CodeUnit>)
    ensures |r| == |NonEmpty(parts)|
  {
    if parts == [] then []
    else if parts[0] == [] then Initials(parts[1..])
    else [FirstCodeUnit(parts[0])] + Initials(parts[1..])
  }

  /** The k-th initial is the first code unit of the k-th non-empty
      segment. */
  lemma {:induction false} InitialsAreFirstUnits(parts: seq<string>)
    ensures forall k :: 0 <= k < |Initials(parts)| ==> Initials(parts)[k] == FirstCodeUnit(NonEmpty(parts)[k])
  {
    if parts != [] {
      InitialsAreFirstUnits(parts[1..]);
      var r, rest := Initials(parts), Initials(parts[1..]);
      var segs, segsRest := NonEmpty(parts), NonEmpty(parts[1..]);
      if parts[0] == [] {
        assert r == rest && segs == segsRest;
      } else {
        assert r == [FirstCodeUnit(parts[0])] + rest;
        assert segs == [parts[0]] + segsRest;
        forall k | 0 < k < |r| ensures r[k] == FirstCodeUnit(segs[k]) {
          assert r[k] == rest[k - 1] && segs[k] == segsRest[k - 1];
        }
      }
    }
  }

  /** Empty segments contribute nothing: the initials of the segments are
      those of their non-empty ones. */
  lemma {:induction false} InitialsSkipEmpty(parts: seq<string>)
    ensures Initials(parts) == Initials(NonEmpty(parts))
  {
    if parts != [] {
      InitialsSkipEmpty(parts[1..]);
      var segs, segsRest := NonEmpty(parts), NonEmpty(parts[1..]);
      if parts[0] == [] {
        assert segs == segsRest;
        assert Initials(parts) == Initials(parts[1..]);
      } else {
        assert segs == [parts[0]] + segsRest;
        assert segs[0] == parts[0] && segs[1..] == segsRest;
        assert Initials(segs) == [FirstCodeUnit(parts[0])] + Initials(segsRest);
        assert Initials(parts) == [FirstCodeUnit(parts[0])] + Initials(parts[1..]);
      }
    }
  }

  /** Filtering segments that are all non-empty keeps them all. */
  lemma {:induction false} NonEmptyKeepsAll(parts: seq<string>)
    requires forall i :: 0 <= i < |parts| ==> parts[i] != []
    ensures NonEmpty(parts) == parts
  {
    if parts != [] {
      NonEmptyKeepsAll(parts[1..]);
    }
  }

  /** A character below the surrogate range that no segment holds is not
      among the initials. */
  lemma InitialsAvoid(parts: seq<string>, c: char)
    requires c as int < 0xD800
    requires forall i :: 0 <= i < |parts| ==> c !in parts[i]
    ensures c as int !in Initials(parts)
  {
    var r := Initials(parts);
    var segs := NonEmpty(parts);
    NonEmptyMembers(parts);
    InitialsAreFirstUnits(parts);
    forall k | 0 <= k < |r| ensures r[k] != c as int {
      var seg := segs[k];
      assert seg in parts;
      var i :| 0 <= i < |parts| && parts[i] == seg;
      FirstCodeUnitAvoids(seg, c);
    }
  }

  /** A segment's first code unit is not a character below the surrogate
      range that the segment does not hold. */
  lemma FirstCodeUnitAvoids(seg: string, c: char)
    requires seg != [] && c !in seg && c as int < 0xD800
    ensures FirstCodeUnit(seg) != c as int
  {
    assert seg[0] in seg;
  }

  /** `emailToInitials`: the first code unit of each non-empty
      '.'-separated segment of the local part, in order; nothing for a
      missing or empty address. */
  function EmailToInitials(email: Option<string>): (r: seq<CodeUnit>)
    ensures !Truthy(email) ==> r == []
    ensures Truthy(email) ==>
      var segments := NonEmpty(Split(LocalPart(email.value), '.'));
      && |r| == |segments|
      && forall k :: 0 <= k < |r| ==> r[k] == FirstCodeUnit(segments[k])
    ensures '.' as int !in r && '@' as int !in r
  {
    if !Truthy(email) then []
    else
      var local := LocalPart(email.value);
      var segments := Split(local, '.');
      assert forall i :: 0 <= i < |segments| ==> segments[i] in segments;
      SplitAvoids(local, '.', '@');
      InitialsAvoid(segments, '.');
      InitialsAvoid(segments, '@');
      InitialsAreFirstUnits(segments);
      Initials(segments)
  }

  /** When every segment is non-empty, the initials are the segments' first
      code units, one per segment, in order. */
  lemma InitialsInOrder(parts: seq<string>)
    requires forall i :: 0 <= i < |parts| ==> parts[i] != []
    ensures |Initials(parts)| == |parts|
    ensures forall k :: 0 <= k < |parts| ==> Initials(parts)[k] == FirstCodeUnit(parts[k])
  {
    NonEmptyKeepsAll(parts);
    InitialsAreFirstUnits(parts);
  }

  /** A segment starting with U+1F600 contributes the lone high surrogate
      U+D83D, not the whole character. */
  lemma AstralInitialIsSurrogate(rest: string)
    ensures Initials(["\U{1F600}" + rest]) == [0xD83D]
  {
    InitialsAreFirstUnits(["\U{1F600}" + rest]);
    var p := "\U{1F600}" + rest;
    assert NonEmpty([p]) == [p];
    assert Utf16Char(p[0]) == [0xD83D, 0xDE00];
  }
}
