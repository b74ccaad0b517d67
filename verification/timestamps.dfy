/** Decoding of the "created (uppdaterad updated)" fragment that each search
    result of the publication carries (`Scraper._parsedate` and
    `Scraper._get_created_updated`). The lenient date parser is a parameter. */
module Timestamps {
  import opened Text

  datatype Option<T> = None | Some(value: T)

  /** A `tzinfo` object: the name of its zone in the time-zone database and
      which of that zone's `tzinfo` objects it is. A `pytz` zone has one object
      per offset it has ever used, all under the same name; two `Zone` values are
      equal exactly when they stand for the same object. */
  datatype Zone = Zone(name: string, entry: nat)

  /** The object `pytz.timezone('Europe/Stockholm')` returns, which `replace`
      attaches to every date parsed without a zone: the zone's first entry, its
      local mean time. Dates made with `localize` carry other entries of the
      same zone. */
  const Stockholm: Zone := Zone("Europe/Stockholm", 0)

  /** A date and time: its wall-clock reading, in seconds from a fixed origin,
      and its time zone when it has one (a naive date has none). */
  datatype DateTime = DateTime(wall: int, zone: Option<Zone>)

  /** A date that carries a time zone (an "aware" date). */
  type Aware = d: DateTime | d.zone.Some? witness DateTime(0, Some(Stockholm))

  /** The text that announces the updated part of a fragment. */
  const Marker: string := "(uppdaterad"

  /** The two pieces a fragment is cut into before parsing. */
  datatype Segments = Segments(created: string, updated: string)

  /** What `_get_created_updated` returns: the sentinel pair, here an explicit
      absent value, or the two parsed dates. */
  datatype Stamps = Unavailable | Stamped(created: Aware, updated: Aware)

  /** `_parsedate`: the parser's result, given the Stockholm zone when it has no zone of its own. */
  function ParseDate(parse: string -> DateTime, s: string): (r: Aware)
    ensures r.wall == parse(s).wall
    ensures parse(s).zone.Some? ==> r == parse(s)
    ensures parse(s).zone.None? ==> r.zone == Some(Stockholm)
  {
    var d := parse(s);
    if d.zone.None? then d.(zone := Some(Stockholm)) else d
  }

  /** The text-cutting half of `_get_created_updated`: strip the fragment, find the
      first marker, give up unless there is one and the text ends in `)`, and
      otherwise cut at the marker and strip both halves. */
  function Split(raw: string): (r: Option<Segments>)
    ensures r.None? <==> !WellFormed(raw)
  {
    var d := Strip(raw, IsSpace);
    var pos := Find(d, Marker);
    if pos < 0 || d[|d| - 1] != ')' then None
    else Some(Segments(Strip(d[..pos], IsSpace), Strip(d[pos..], IsSpace)))
  }

  /** `_get_created_updated`: both halves of the cut parsed with `_parsedate`. */
  /** With `d` the stripped fragment and `cut` the position of its first marker,
      the created date is parsed from `d[..cut]` stripped and the updated date
      from `d[cut..]`; the sentinel comes exactly for fragments that are not
      well formed. */
  function CreatedUpdated(raw: string, parse: string -> DateTime): (r: Stamps)
    ensures r.Unavailable? <==> !WellFormed(raw)
    ensures r.Stamped? ==>
      var d := Strip(raw, IsSpace);
      var cut := Find(d, Marker);
      && 0 <= cut <= |d|
      && r.created == ParseDate(parse, Strip(d[..cut], IsSpace))
      && r.updated == ParseDate(parse, d[cut..])
  {
    match Split(raw)
    case None => Unavailable
    case Some(seg) =>
      SplitCreated(raw);
      SplitUpdated(raw);
      Stamped(ParseDate(parse, seg.created), ParseDate(parse, seg.updated))
  }

  /** The fragment is well formed: after stripping it holds the marker and ends in `)`. */
  predicate WellFormed(raw: string)
  {
    var d := Strip(raw, IsSpace);
    Contains(d, Marker) && |d| > 0 && d[|d| - 1] == ')'
  }

  /** Cut at an occurrence of a pattern that starts with a non-space character,
      in a text that ends with one, the tail is left alone by `strip()`. */
  lemma TailTrimmed(d: string, pat: string, cut: nat)
    requires OccursAt(d, pat, cut) && |pat| > 0 && !IsSpace(pat[0])
    requires !IsSpace(d[|d| - 1])
    ensures Strip(d[cut..], IsSpace) == d[cut..]
    ensures d[cut..][..|pat|] == pat
    ensures d == d[..cut] + d[cut..]
  {
  }

  /** When no occurrence of `pat` starts before `cut`, none lies in the text
      before `cut`, stripped or not. */
  lemma NoneBefore(d: string, pat: string, cut: nat)
    requires cut <= |d| && |pat| > 0
    requires forall k :: 0 <= k < cut ==> !OccursAt(d, pat, k)
    ensures !Contains(d[..cut], pat)
    ensures !Contains(Strip(d[..cut], IsSpace), pat)
  {
    var pre := d[..cut];
    if Contains(pre, pat) {
      var k :| 0 <= k <= |pre| && OccursAt(pre, pat, k);
      OccursInSlice(d, pat, 0, cut, k);
      assert false;
    }
    var i, j := StripBounds(pre, IsSpace);
    var created := Strip(pre, IsSpace);
    if Contains(created, pat) {
      var k :| 0 <= k <= |created| && OccursAt(created, pat, k);
      OccursInSlice(pre, pat, i, j, k);
      assert false;
    }
  }

  /** A well-formed fragment is cut at the first marker of its stripped text. */
  lemma SplitAt(raw: string) returns (cut: nat)
    requires WellFormed(raw)
    ensures var d := Strip(raw, IsSpace);
      && cut == Find(d, Marker)
      && OccursAt(d, Marker, cut)
      && (forall k :: 0 <= k < cut ==> !OccursAt(d, Marker, k))
      && Split(raw) == Some(Segments(Strip(d[..cut], IsSpace), Strip(d[cut..], IsSpace)))
  {
    var d := Strip(raw, IsSpace);
    cut := Find(d, Marker);
  }

  /** The updated segment of a well-formed fragment. With `d` the stripped
      fragment and `cut` the position of its first marker, the updated segment
      is `d[cut..]` itself, unchanged by the second `strip()`: it starts with the
      marker and ends in `)`, and `d` is `d[..cut]` followed by it. */
  lemma SplitUpdated(raw: string)
    requires WellFormed(raw)
    ensures Split(raw).Some?
    ensures var d, cut, u := Strip(raw, IsSpace), Find(Strip(raw, IsSpace), Marker), Split(raw).value.updated;
      && 0 <= cut && cut + |Marker| <= |d|
      && u == d[cut..]
      && d == d[..cut] + u
      && u[..|Marker|] == Marker
      && u[|u| - 1] == ')'
  {
    var d := Strip(raw, IsSpace);
    var cut := SplitAt(raw);
    TailTrimmed(d, Marker, cut);
  }

  /** The created segment of a well-formed fragment. With `d` the stripped
      fragment and `cut` the position of its first marker, the created segment
      is `d[..cut]` stripped; no marker starts before `cut`, so neither
      `d[..cut]` nor the created segment holds one. */
  lemma SplitCreated(raw: string)
    requires WellFormed(raw)
    ensures Split(raw).Some?
    ensures var d, cut, c := Strip(raw, IsSpace), Find(Strip(raw, IsSpace), Marker), Split(raw).value.created;
      && 0 <= cut <= |d|
      && c == Strip(d[..cut], IsSpace)
      && (forall k :: 0 <= k < cut ==> !OccursAt(d, Marker, k))
      && !Contains(d[..cut], Marker)
      && !Contains(c, Marker)
  {
    var d := Strip(raw, IsSpace);
    var cut := SplitAt(raw);
    NoneBefore(d, Marker, cut);
  }

  /** A well-formed fragment is stamped, and each date keeps the wall-clock
      reading the parser gave for its segment. */
  lemma StampsAreAware(raw: string, parse: string -> DateTime)
    requires WellFormed(raw)
    ensures var r := CreatedUpdated(raw, parse);
      && r.Stamped?
      && r.created.wall == parse(Split(raw).value.created).wall
      && r.updated.wall == parse(Split(raw).value.updated).wall
  {
  }

  /** A fragment whose stripped text is empty or does not end in `)` decodes to
      the sentinel, whatever markers it holds. */
  lemma TrailingTextIsUnavailable(raw: string, parse: string -> DateTime)
    requires var d := Strip(raw, IsSpace); |d| == 0 || d[|d| - 1] != ')'
    ensures CreatedUpdated(raw, parse) == Unavailable
  {
  }
}
