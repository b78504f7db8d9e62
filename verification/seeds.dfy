/** The replica-set seed scanner: `REPLICA_SEED_REGEX = ([^:,]+)(:([^,]*))?` applied with
    repeated `Matcher.find()`, and a comma-segment description of what it finds. */
module Seeds {
  import opened Results

  /** One regex match: group 1 (the host text) and group 3 (the port text, `None` when the
      optional group did not take part in the match). */
  datatype RawSeed = RawSeed(host: string, port: Option<string>)

  /** The length of the longest prefix of `s` that avoids every character in `stops`. */
  function Run(s: string, stops: set<char>): (n: nat)
    ensures n <= |s|
    ensures forall k :: 0 <= k < n ==> s[k] !in stops
    ensures n < |s| ==> s[n] in stops
  {
    if s == [] || s[0] in stops then 0 else 1 + Run(s[1..], stops)
  }

  /** A run is determined by where it stops. */
  lemma {:induction false} RunIs(s: string, stops: set<char>, n: nat)
    requires n <= |s|
    requires forall k :: 0 <= k < n ==> s[k] !in stops
    requires n < |s| ==> s[n] in stops
    ensures Run(s, stops) == n
  {
    if n > 0 {
      RunIs(s[1..], stops, n - 1);
    }
  }

  /** One `find()` that starts at a character other than `:` and `,`: the match, and the index
      where the next search starts. */
  datatype Found = Found(seed: RawSeed, next: nat)

  /** Group 1 takes the longest run free of `:` and `,`; when a `:` follows, the optional group
      takes it and everything up to the next `,`. */
  function MatchAt(s: string): (m: Found)
    requires s != [] && s[0] != ':' && s[0] != ','
    ensures 0 < m.next <= |s|
    ensures m.seed.host != [] && ':' !in m.seed.host && ',' !in m.seed.host
    ensures m.seed.port.Some? ==> ',' !in m.seed.port.value
  {
    var h := Run(s, {':', ','});
    if h < |s| && s[h] == ':' then
      var p := Run(s[h + 1..], {','});
      Found(RawSeed(s[..h], Some(s[h + 1..h + 1 + p])), h + 1 + p)
    else
      Found(RawSeed(s[..h], None), h)
  }

  /** The successive matches of `find()`: separators are skipped, and each search resumes where
      the previous match ended. */
  function FindAll(s: string): (r: seq<RawSeed>)
    ensures forall i :: 0 <= i < |r| ==> r[i].host != [] && ':' !in r[i].host && ',' !in r[i].host
    ensures forall i :: 0 <= i < |r| && r[i].port.Some? ==> ',' !in r[i].port.value
    decreases |s|
  {
    if s == [] then []
    else if s[0] == ':' || s[0] == ',' then FindAll(s[1..])
    else
      var m := MatchAt(s);
      [m.seed] + FindAll(s[m.next..])
  }

  // ---------------------------------------------------------------- by comma segments

  /** `s` split at every comma (`String.split(",", -1)`): empty segments are kept. */
  function Segments(s: string): (r: seq<string>)
    ensures |r| >= 1
    ensures forall i :: 0 <= i < |r| ==> ',' !in r[i]
    ensures JoinSegments(r) == s
    decreases |s|
  {
    var n := Run(s, {','});
    if n == |s| then [s]
    else
      var r := [s[..n]] + Segments(s[n + 1..]);
      assert r[1..] == Segments(s[n + 1..]);
      assert s == s[..n] + "," + s[n + 1..];
      r
  }

  /** The segments glued back together with commas. */
  function JoinSegments(segs: seq<string>): string
    requires |segs| >= 1
  {
    if |segs| == 1 then segs[0] else segs[0] + "," + JoinSegments(segs[1..])
  }

  /** Splitting undoes joining when no segment holds a comma. */
  lemma {:induction false} SegmentsOfJoin(segs: seq<string>)
    requires |segs| >= 1
    requires forall i :: 0 <= i < |segs| ==> ',' !in segs[i]
    ensures Segments(JoinSegments(segs)) == segs
  {
    var s := JoinSegments(segs);
    var n := |segs[0]|;
    if |segs| == 1 {
      RunIs(s, {','}, n);
    } else {
      assert forall k :: 0 <= k < n ==> s[k] == segs[0][k];
      RunIs(s, {','}, n);
      assert s[..n] == segs[0];
      assert s[n + 1..] == JoinSegments(segs[1..]);
      SegmentsOfJoin(segs[1..]);
      assert segs == [segs[0]] + segs[1..];
    }
  }

  /** The number of `:` characters `seg` starts with. */
  function LeadingColons(seg: string): (n: nat)
    ensures n <= |seg|
  {
    if seg != [] && seg[0] == ':' then 1 + LeadingColons(seg[1..]) else 0
  }

  /** What one comma-free segment contributes: nothing if it is colons only; otherwise the
      host runs from the first non-colon to the next colon, and the port text, if that colon
      exists, is everything after it. */
  function SegmentSeed(seg: string): Option<RawSeed> {
    var rest := seg[LeadingColons(seg)..];
    if rest == [] then None
    else
      var h := Run(rest, {':'});
      Some(RawSeed(rest[..h], if h < |rest| then Some(rest[h + 1..]) else None))
  }

  /** The scan finds something exactly when the text holds a character other than `:` and `,`. */
  lemma {:induction false} FindAllEmpty(s: string)
    ensures FindAll(s) == [] <==> forall k :: 0 <= k < |s| ==> s[k] == ':' || s[k] == ','
    decreases |s|
  {
    if s != [] && (s[0] == ':' || s[0] == ',') {
      FindAllEmpty(s[1..]);
      assert forall k :: 1 <= k < |s| ==> s[k] == s[1..][k - 1];
    }
  }

  /** The seeds of a list of segments, in order. */
  function SegmentSeeds(segs: seq<string>): seq<RawSeed> {
    if segs == [] then []
    else
      (match SegmentSeed(segs[0]) case Some(seed) => [seed] case None => []) + SegmentSeeds(segs[1..])
  }

  lemma {:induction false} SegmentSeedColon(seg: string)
    ensures SegmentSeed(":" + seg) == SegmentSeed(seg)
  {
    assert (":" + seg)[1..] == seg;
  }

  lemma {:induction false} SegmentsColon(s: string)
    ensures Segments(":" + s) == [":" + Segments(s)[0]] + Segments(s)[1..]
  {
    var t := ":" + s;
    assert t[1..] == s;
    var n := Run(s, {','});
    RunIs(t, {','}, n + 1);
    if n < |s| {
      assert t[..n + 1] == ":" + s[..n];
      assert t[n + 2..] == s[n + 1..];
    }
  }

  /** The segment seed of a host-only match: a host run ended by a comma or the end. */
  lemma {:induction false} HostOnlySegment(s: string, h: nat)
    requires 0 < h <= |s| && h == Run(s, {':', ','})
    requires h == |s| || s[h] == ','
    ensures SegmentSeed(s[..h]) == Some(RawSeed(s[..h], None))
  {
    var seg := s[..h];
    assert seg[0] == s[0] && seg[0] != ':';
    assert LeadingColons(seg) == 0;
    assert seg[0..] == seg;
    assert forall k :: 0 <= k < h ==> seg[k] == s[k] && s[k] !in {':', ','};
    RunIs(seg, {':'}, h);
    assert seg[..h] == seg;
  }

  /** The segment seed of a host-and-port match. */
  lemma {:induction false} HostPortSegment(s: string, h: nat, e: nat)
    requires 0 < h < e <= |s| && h == Run(s, {':', ','}) && s[h] == ':'
    requires forall k :: h < k < e ==> s[k] != ','
    ensures SegmentSeed(s[..e]) == Some(RawSeed(s[..h], Some(s[h + 1..e])))
  {
    var seg := s[..e];
    assert seg[0] == s[0] && seg[0] != ':';
    assert LeadingColons(seg) == 0;
    assert seg[0..] == seg;
    assert forall k :: 0 <= k < h ==> seg[k] == s[k] && s[k] !in {':', ','};
    RunIs(seg, {':'}, h);
    assert seg[..h] == s[..h] && seg[h + 1..] == s[h + 1..e];
  }

  lemma {:induction false} SegmentSeedsCons(seg: string, tail: seq<string>)
    ensures SegmentSeeds([seg] + tail)
         == (match SegmentSeed(seg) case Some(seed) => [seed] case None => []) + SegmentSeeds(tail)
  {
    assert ([seg] + tail)[1..] == tail;
  }

  lemma {:induction false} SegmentsSplit(s: string, e: nat)
    requires e < |s| && e == Run(s, {','})
    ensures Segments(s) == [s[..e]] + Segments(s[e + 1..])
  {
  }

  lemma {:induction false} SegmentsLeadingComma(s: string)
    requires s != [] && s[0] == ','
    ensures Segments(s) == [""] + Segments(s[1..])
  {
    RunIs(s, {','}, 0);
    SegmentsSplit(s, 0);
  }

  lemma {:induction false} FindAllSkip(s: string)
    requires s != [] && s[0] == ','
    ensures FindAll(s) == FindAll(s[1..])
  {
  }

  /** One seed per comma segment that holds a character other than `:`, in input order:
      the regex scan and the segment description agree on every input. */
  lemma {:induction false} FindAllBySegments(s: string)
    ensures FindAll(s) == SegmentSeeds(Segments(s))
    decreases |s|, 1
  {
    if s == [] {
      assert Segments(s) == [""];
    } else if s[0] == ',' {
      SegmentsLeadingComma(s);
      SegmentSeedsCons("", Segments(s[1..]));
      FindAllSkip(s);
      FindAllBySegments(s[1..]);
    } else if s[0] == ':' {
      FindAllColon(s);
    } else {
      FindAllHost(s);
    }
  }

  lemma {:induction false} FindAllColon(s: string)
    requires s != [] && s[0] == ':'
    ensures FindAll(s) == SegmentSeeds(Segments(s))
    decreases |s|, 0
  {
    var t := s[1..];
    assert s == ":" + t;
    SegmentsColon(t);
    SegmentSeedColon(Segments(t)[0]);
    FindAllBySegments(t);
    assert Segments(t) == [Segments(t)[0]] + Segments(t)[1..];
    SegmentSeedsCons(Segments(t)[0], Segments(t)[1..]);
    SegmentSeedsCons(":" + Segments(t)[0], Segments(t)[1..]);
  }

  /** A first match that takes the optional port group ends at the first comma. */
  lemma {:induction false} MatchWithPort(s: string, h: nat)
    requires s != [] && s[0] != ':' && s[0] != ','
    requires h == Run(s, {':', ','}) && h < |s| && s[h] == ':'
    ensures MatchAt(s).next == Run(s, {','})
    ensures SegmentSeed(s[..MatchAt(s).next]) == Some(MatchAt(s).seed)
  {
    var p := Run(s[h + 1..], {','});
    var e := h + 1 + p;
    assert MatchAt(s) == Found(RawSeed(s[..h], Some(s[h + 1..e])), e);
    PortRun(s, h);
    HostPortSegment(s, h, e);
  }

  /** The port group runs from after the colon to the first comma, which is then the first
      comma of the whole string. */
  lemma {:induction false} PortRun(s: string, h: nat)
    requires h == Run(s, {':', ','}) && h < |s| && s[h] == ':'
    ensures forall k :: h < k < h + 1 + Run(s[h + 1..], {','}) ==> s[k] != ','
    ensures Run(s, {','}) == h + 1 + Run(s[h + 1..], {','})
  {
    var t := s[h + 1..];
    var e := h + 1 + Run(t, {','});
    forall k | 0 <= k < e
      ensures s[k] !in {','}
    {
      if k > h {
        assert s[k] == t[k - h - 1];
      }
    }
    if e < |s| {
      assert s[e] == t[e - h - 1];
    }
    RunIs(s, {','}, e);
  }

  /** A first match without the port group ends at the first comma too. */
  lemma {:induction false} MatchHostOnly(s: string, h: nat)
    requires s != [] && s[0] != ':' && s[0] != ','
    requires h == Run(s, {':', ','}) && !(h < |s| && s[h] == ':')
    ensures MatchAt(s).next == Run(s, {','})
    ensures SegmentSeed(s[..MatchAt(s).next]) == Some(MatchAt(s).seed)
  {
    RunIs(s, {','}, h);
    HostOnlySegment(s, h);
    assert MatchAt(s) == Found(RawSeed(s[..h], None), h);
  }

  /** The first match of a scan that starts at a host character covers exactly the first
      comma segment, and yields that segment's seed. */
  lemma {:induction false} FirstMatch(s: string) returns (e: nat, seed: RawSeed)
    requires s != [] && s[0] != ':' && s[0] != ','
    ensures e <= |s| && e == Run(s, {','})
    ensures FindAll(s) == [seed] + FindAll(s[e..])
    ensures SegmentSeed(s[..e]) == Some(seed)
  {
    e, seed := MatchAt(s).next, MatchAt(s).seed;
    var h := Run(s, {':', ','});
    if h < |s| && s[h] == ':' {
      MatchWithPort(s, h);
    } else {
      MatchHostOnly(s, h);
    }
  }

  lemma {:induction false} FindAllHost(s: string)
    requires s != [] && s[0] != ':' && s[0] != ','
    ensures FindAll(s) == SegmentSeeds(Segments(s))
    decreases |s|, 0
  {
    var e, seed := FirstMatch(s);
    if e < |s| {
      SegmentsSplit(s, e);
      SegmentSeedsCons(s[..e], Segments(s[e + 1..]));
      FindAllSkip(s[e..]);
      assert s[e..][1..] == s[e + 1..];
      FindAllBySegments(s[e + 1..]);
    } else {
      assert s[..e] == s;
      assert Segments(s) == [s];
      SegmentSeedsCons(s, []);
    }
  }

  // ---------------------------------------------------------------- one match at a time

  /** Separators before a match are skipped. */
  lemma {:induction false} FindAllSkipsSeparator(c: char, t: string)
    requires c == ':' || c == ','
    ensures FindAll([c] + t) == FindAll(t)
  {
    assert ([c] + t)[1..] == t;
  }

  /** A host followed by a separator is a run of exactly its length. */
  lemma {:induction false} HostRun(s: string, h: string)
    requires ':' !in h && ',' !in h && |h| < |s| && s[..|h|] == h && (s[|h|] == ':' || s[|h|] == ',')
    ensures Run(s, {':', ','}) == |h|
  {
    assert forall k :: 0 <= k < |h| ==> s[k] == h[k];
    RunIs(s, {':', ','}, |h|);
  }

  /** A host run ended by a comma is one match; the scan resumes after the comma. */
  lemma {:induction false} FindAllHostThenComma(h: string, t: string)
    requires h != [] && ':' !in h && ',' !in h
    ensures FindAll(h + "," + t) == [RawSeed(h, None)] + FindAll(t)
  {
    var s := h + "," + t;
    assert s[..|h|] == h;
    HostRun(s, h);
    assert MatchAt(s) == Found(RawSeed(h, None), |h|);
    assert s[|h|..] == [','] + t;
    FindAllSkipsSeparator(',', t);
  }

  /** A host run reaching the end is the last match. */
  lemma {:induction false} FindAllHostOnly(h: string)
    requires h != [] && ':' !in h && ',' !in h
    ensures FindAll(h) == [RawSeed(h, None)]
  {
    RunIs(h, {':', ','}, |h|);
    assert h[..|h|] == h;
    assert MatchAt(h) == Found(RawSeed(h, None), |h|);
  }

  /** A host run followed by a colon takes everything up to the end as its port text when no
      comma follows, whatever colons that text holds. */
  lemma {:induction false} FindAllHostPort(h: string, p: string)
    requires h != [] && ':' !in h && ',' !in h && ',' !in p
    ensures FindAll(h + ":" + p) == [RawSeed(h, Some(p))]
  {
    var s := h + ":" + p;
    assert s[..|h|] == h;
    HostRun(s, h);
    assert s[|h| + 1..] == p;
    RunIs(p, {','}, |p|);
    assert s[|h| + 1..|h| + 1 + |p|] == p;
    assert MatchAt(s) == Found(RawSeed(h, Some(p)), |s|);
    assert s[|s|..] == [];
  }
}
