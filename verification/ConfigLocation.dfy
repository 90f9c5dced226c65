/** The bounded, sanitised location reported for an unknown configuration key. */
module ConfigLocation {
  import opened Decimal

  const MAX_SEGMENTS: nat := 16
  const MAX_SEGMENT_LEN: nat := 48
  const MAX_LOCATION_LEN: nat := 160
  const INVALID_SEGMENT: string := "<segment>"
  const TRUNCATED: string := "<truncated>"
  const ROOT: string := "<root>"

  datatype Path =
    | Root
    | Map(parent: Path, key: string)
    | Seq(parent: Path, index: nat)
    | Wrapped(parent: Path)  // an Option, a newtype struct or a newtype variant

  predicate SafeChar(c: char)
  {
    'a' <= c <= 'z' || 'A' <= c <= 'Z' || IsDigit(c) || c == '_' || c == '-'
  }

  function Sanitise(segment: string): (r: string)
    ensures r != []
  {
    if segment != [] && |segment| <= MAX_SEGMENT_LEN && (forall i :: 0 <= i < |segment| ==> SafeChar(segment[i]))
    then segment
    else INVALID_SEGMENT
  }

  predicate GoodSegment(segment: string)
  {
    0 < |segment| <= MAX_SEGMENT_LEN && forall c :: c in segment ==> SafeChar(c)
  }

  /** A segment survives exactly when it is not empty, not too long and made of safe characters (or is the stand-in
      itself); every other one becomes the stand-in. */
  lemma SanitiseIff(segment: string)
    ensures Sanitise(segment) == segment <==> GoodSegment(segment) || segment == INVALID_SEGMENT
    ensures Sanitise(segment) == segment || Sanitise(segment) == INVALID_SEGMENT
  {
    if GoodSegment(segment) {
      assert forall i :: 0 <= i < |segment| ==> segment[i] in segment;
    }
  }

  /** The sanitised segments of a path, outermost first. */
  function Segments(p: Path): (segs: seq<string>)
  {
    match p
    case Root => []
    case Map(parent, key) => Segments(parent) + [Sanitise(key)]
    case Seq(parent, index) => Segments(parent) + [Sanitise(Show(index))]
    case Wrapped(parent) => Segments(parent)
  }

  function Join(segs: seq<string>): (s: string)
  {
    if segs == [] then ""
    else
      var last := segs[|segs| - 1];
      if |segs| == 1 then last else Join(segs[..|segs| - 1]) + "." + last
  }

  predicate NonEmpty(segs: seq<string>)
  {
    forall i :: 0 <= i < |segs| ==> segs[i] != []
  }

  lemma {:induction false} SegmentsNonEmpty(p: Path)
    ensures NonEmpty(Segments(p))
  {
    match p
    case Root =>
    case Map(parent, _) => SegmentsNonEmpty(parent);
    case Seq(parent, _) => SegmentsNonEmpty(parent);
    case Wrapped(parent) => SegmentsNonEmpty(parent);
  }

  lemma JoinSnoc(segs: seq<string>, x: string)
    requires NonEmpty(segs)
    ensures Join(segs + [x]) == (if Join(segs) == [] then x else Join(segs) + "." + x)
    ensures Join(segs) == [] <==> segs == []
  {
    assert (segs + [x])[..|segs|] == segs;
  }

  predicate Fits(segs: seq<string>)
  {
    |segs| <= MAX_SEGMENTS && |Join(segs)| <= MAX_LOCATION_LEN
  }

  lemma FitsShrinks(segs: seq<string>, x: string)
    requires NonEmpty(segs) && Fits(segs + [x])
    ensures Fits(segs)
  {
    JoinSnoc(segs, x);
  }

  /** The whole-path answer: the join of the parent's segments if it is small enough, otherwise exactly the
      truncation marker; the root marker when there is nothing to join. */
  function Location(p: Path): (s: string)
  {
    if !p.Map? then ROOT
    else
      var segs := Segments(p.parent);
      if segs == [] then ROOT
      else if Fits(segs) then Join(segs)
      else TRUNCATED
  }

  /** Nothing from the configuration reaches the message except short alphanumeric segments. */
  lemma LocationIsBounded(p: Path)
    ensures 0 < |Location(p)| <= MAX_LOCATION_LEN
    ensures Clean(Location(p))
  {
    if p.Map? {
      SegmentsNonEmpty(p.parent);
      var segs := Segments(p.parent);
      if segs != [] {
        assert segs == segs[..|segs| - 1] + [segs[|segs| - 1]];
        JoinSnoc(segs[..|segs| - 1], segs[|segs| - 1]);
        JoinIsClean(p.parent);
      }
    }
  }

  predicate Clean(s: string)
  {
    forall i :: 0 <= i < |s| ==> SafeChar(s[i]) || s[i] == '.' || s[i] == '<' || s[i] == '>'
  }

  lemma SanitiseIsClean(segment: string)
    ensures Clean(Sanitise(segment))
  {
  }

  lemma CleanSnoc(segs: seq<string>, segment: string)
    requires NonEmpty(segs) && Clean(Join(segs))
    ensures Clean(Join(segs + [Sanitise(segment)]))
  {
    JoinSnoc(segs, Sanitise(segment));
    SanitiseIsClean(segment);
    hide Join, Sanitise;
  }

  lemma {:induction false} JoinIsClean(p: Path)
    ensures Clean(Join(Segments(p)))
  {
    match p
    case Root =>
    case Map(parent, key) =>
      JoinIsClean(parent);
      SegmentsNonEmpty(parent);
      CleanSnoc(Segments(parent), key);
      hide Join;
    case Seq(parent, index) =>
      JoinIsClean(parent);
      SegmentsNonEmpty(parent);
      CleanSnoc(Segments(parent), Show(index));
      hide Join;
    case Wrapped(parent) =>
      JoinIsClean(parent);
  }

  class LocationBuilder {
    var location: string
    var remaining: nat

    constructor ()
      ensures location == "" && remaining == MAX_SEGMENTS
    {
      location := "";
      remaining := MAX_SEGMENTS;
    }

    /** These segments, and no others, have been appended. */
    ghost predicate Holds(segs: seq<string>)
      reads this
    {
      NonEmpty(segs) && Fits(segs) && location == Join(segs) && remaining == MAX_SEGMENTS - |segs|
    }

    method AppendSegment(segment: string, ghost segs: seq<string>) returns (ok: bool)
      requires Holds(segs)
      modifies this
      ensures ok <==> Fits(segs + [Sanitise(segment)])
      ensures if ok then Holds(segs + [Sanitise(segment)]) else location == TRUNCATED
    {
      var safe := Sanitise(segment);
      JoinSnoc(segs, safe);
      if remaining == 0 {
        location := TRUNCATED;
        return false;
      }
      remaining := remaining - 1;
      var separator := if location == "" then 0 else 1;
      if |location| + separator + |safe| > MAX_LOCATION_LEN {
        location := TRUNCATED;
        return false;
      }
      if separator == 1 {
        location := location + ".";
      }
      location := location + safe;
      ok := true;
    }

    method AppendLocation(p: Path) returns (ok: bool)
      requires Holds([])
      modifies this
      ensures ok <==> Fits(Segments(p))
      ensures if ok then Holds(Segments(p)) else location == TRUNCATED
      decreases p
    {
      SegmentsNonEmpty(p);
      match p {
        case Root =>
          return true;
        case Map(parent, key) =>
          ok := AppendLocation(parent);
          if !ok {
            StaysTooBig(parent, Sanitise(key));
            return false;
          }
          ok := AppendSegment(key, Segments(parent));
        case Seq(parent, index) =>
          ok := AppendLocation(parent);
          if !ok {
            StaysTooBig(parent, Sanitise(Show(index)));
            return false;
          }
          ok := AppendSegment(Show(index), Segments(parent));
        case Wrapped(parent) =>
          ok := AppendLocation(parent);
      }
    }
  }

  lemma StaysTooBig(parent: Path, x: string)
    requires !Fits(Segments(parent))
    ensures !Fits(Segments(parent) + [x])
  {
    SegmentsNonEmpty(parent);
    if Fits(Segments(parent) + [x]) {
      FitsShrinks(Segments(parent), x);
    }
  }

  method SafeUnknownParentLocation(p: Path) returns (s: string)
    ensures s == Location(p)
  {
    var b := new LocationBuilder();
    if p.Map? {
      SegmentsNonEmpty(p.parent);
      var _ := b.AppendLocation(p.parent);
      if Segments(p.parent) != [] {
        JoinSnoc(Segments(p.parent), "");
      }
    }
    if b.location == "" {
      s := ROOT;
    } else {
      s := b.location;
    }
  }
}
