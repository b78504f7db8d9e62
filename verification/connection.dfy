/** `openConnection`: the replica-set seeds or the single host address handed to the driver.
    Host resolution, which the driver performs while building each `ServerAddress`, is the
    oracle `resolves`. */
module Connection {
  import opened Results
  import opened Failures
  import opened JavaText
  import opened Seeds
  import opened Settings

  /** `ServerAddress.defaultPort()`. */
  const DefaultPort: int := 27017

  datatype Endpoint = Endpoint(host: string, port: int)

  /** How the client is addressed: a seed list, or one host (a null host is the driver's
      default host). */
  datatype Addressing = ReplicaSet(seeds: seq<Endpoint>) | SingleHost(host: Option<string>, port: int)

  /** The `Mongo` client: its addressing and the driver options it was given, if any. */
  datatype Client = Client(addressing: Addressing, options: Option<DriverOptions>)

  /** True when a seed's port text is null, empty or trim-space only. */
  predicate BlankPort(port: Option<string>) {
    port.None? || Trim(port.value) == []
  }

  /** The address built for one regex match: port text parsed untrimmed unless it is blank,
      then the trimmed host resolved. */
  function SeedEndpoint(raw: RawSeed, resolves: string -> bool): (r: Result<Endpoint, Failure>)
    ensures r.Ok? ==> r.value.host == Trim(raw.host) && resolves(r.value.host)
    ensures r.Ok? && BlankPort(raw.port) ==> r.value.port == DefaultPort
    ensures r.Ok? && !BlankPort(raw.port) ==> ParseInt(raw.port.value) == Some(r.value.port)
    ensures !BlankPort(raw.port) && ParseInt(raw.port.value).None? ==> r == Err(PortNotNumeric(raw.port.value))
    ensures r.Err? <==> (!BlankPort(raw.port) && ParseInt(raw.port.value).None?) || !resolves(Trim(raw.host))
    ensures r.Err? ==> r.error.PortNotNumeric? || r.error == Io(UnknownHost(Trim(raw.host)))
    ensures r.Err? && (BlankPort(raw.port) || ParseInt(raw.port.value).Some?) ==>
      r.error == Io(UnknownHost(Trim(raw.host)))
  {
    var port :=
      if BlankPort(raw.port) then Ok(DefaultPort)
      else match ParseInt(raw.port.value)
        case Some(n) => Ok(n)
        case None => Err(PortNotNumeric(raw.port.value));
    if port.Err? then Err(port.error)
    else if !resolves(Trim(raw.host)) then Err(Io(UnknownHost(Trim(raw.host))))
    else Ok(Endpoint(Trim(raw.host), port.value))
  }

  /** The number of leading matches whose address can be built: the index of the first match
      that fails, or `|raws|` when none does. */
  function BuiltPrefix(raws: seq<RawSeed>, resolves: string -> bool): (n: nat)
    ensures n <= |raws|
    ensures forall j :: 0 <= j < n ==> SeedEndpoint(raws[j], resolves).Ok?
    ensures n < |raws| ==> SeedEndpoint(raws[n], resolves).Err?
  {
    if raws == [] || SeedEndpoint(raws[0], resolves).Err? then 0
    else
      var n := 1 + BuiltPrefix(raws[1..], resolves);
      assert forall j :: 1 <= j < |raws| ==> raws[j] == raws[1..][j - 1];
      n
  }

  /** The `while (find())` loop: one address per match, in order; the first match whose
      address cannot be built ends the loop with that failure. */
  function BuildSeeds(raws: seq<RawSeed>, resolves: string -> bool): (r: Result<seq<Endpoint>, Failure>)
    ensures r.Ok? <==> forall i :: 0 <= i < |raws| ==> SeedEndpoint(raws[i], resolves).Ok?
    ensures r.Ok? ==> |r.value| == |raws|
    ensures r.Ok? ==> forall i :: 0 <= i < |raws| ==> SeedEndpoint(raws[i], resolves) == Ok(r.value[i])
    ensures r.Err? ==> r.error.PortNotNumeric? || (r.error.Io? && r.error.cause.UnknownHost?)
    ensures r.Err? ==> var n := BuiltPrefix(raws, resolves);
      n < |raws| && SeedEndpoint(raws[n], resolves) == Err(r.error)
  {
    if raws == [] then Ok([])
    else
      match SeedEndpoint(raws[0], resolves)
      case Err(e) => Err(e)
      case Ok(ep) =>
        match BuildSeeds(raws[1..], resolves)
        case Err(e) =>
          BuiltPrefixStep(raws, resolves);
          Err(e)
        case Ok(rest) =>
          assert forall i :: 1 <= i < |raws| ==> raws[i] == raws[1..][i - 1];
          Ok([ep] + rest)
  }

  /** Past a first match that builds, the count is one more than the count of the rest. */
  lemma {:induction false} BuiltPrefixStep(raws: seq<RawSeed>, resolves: string -> bool)
    requires raws != [] && SeedEndpoint(raws[0], resolves).Ok?
    ensures BuiltPrefix(raws, resolves) == 1 + BuiltPrefix(raws[1..], resolves)
    ensures BuiltPrefix(raws, resolves) < |raws| ==>
      raws[BuiltPrefix(raws, resolves)] == raws[1..][BuiltPrefix(raws[1..], resolves)]
  {
  }

  /** The matches scanned: the replica-set string is scanned only when it is non-null and not
      trim-blank. */
  function ReplicaMatches(cs: ConnectionSettings): (r: seq<RawSeed>)
    ensures cs.replicaSet.None? || Trim(cs.replicaSet.value) == [] ==> r == []
    ensures cs.replicaSet.Some? && Trim(cs.replicaSet.value) != [] ==>
      r == SegmentSeeds(Segments(cs.replicaSet.value))
    ensures forall i :: 0 <= i < |r| ==> r[i].host != [] && ':' !in r[i].host && ',' !in r[i].host
  {
    if cs.replicaSet.Some? && Trim(cs.replicaSet.value) != [] then
      FindAllBySegments(cs.replicaSet.value);
      FindAll(cs.replicaSet.value)
    else []
  }

  /** The second half of `openConnection`: a non-empty seed list gives a replica-set client;
      otherwise one `ServerAddress` is built from the configured host, which must resolve (a
      null host is the driver's default host), and the configured port or the default one. */
  function ChooseClient(cs: ConnectionSettings, seeds: seq<Endpoint>, resolves: string -> bool)
    : (r: Result<Client, Failure>)
    ensures r.Ok? ==> r.value.options == cs.options
    ensures r.Ok? ==> (r.value.addressing.ReplicaSet? <==> seeds != [])
    ensures r.Ok? && r.value.addressing.ReplicaSet? ==> r.value.addressing.seeds == seeds
    ensures r.Ok? && r.value.addressing.SingleHost? ==>
      && r.value.addressing.host == cs.hostname
      && r.value.addressing.port == (if cs.port.Some? then cs.port.value else DefaultPort)
    ensures r.Err? <==> seeds == [] && cs.hostname.Some? && !resolves(cs.hostname.value)
    ensures r.Err? ==> r.error == Io(UnknownHost(cs.hostname.value))
  {
    if |seeds| > 0 then Ok(Client(ReplicaSet(seeds), cs.options))
    else if cs.hostname.Some? && !resolves(cs.hostname.value) then Err(Io(UnknownHost(cs.hostname.value)))
    else Ok(Client(SingleHost(cs.hostname, cs.port.GetOr(DefaultPort)), cs.options))
  }

  /** `openConnection`: replica-set addressing when at least one seed was found, otherwise the
      configured host with the configured port or the default one; the options are passed on
      exactly as configured. */
  function OpenConnection(cs: ConnectionSettings, resolves: string -> bool): (r: Result<Client, Failure>)
    ensures r.Ok? ==> r.value.options == cs.options
    ensures r.Ok? ==> (r.value.addressing.ReplicaSet? <==> ReplicaMatches(cs) != [])
    ensures r.Ok? && r.value.addressing.ReplicaSet? ==>
      BuildSeeds(ReplicaMatches(cs), resolves) == Ok(r.value.addressing.seeds)
    ensures r.Ok? && r.value.addressing.SingleHost? ==>
      && r.value.addressing.host == cs.hostname
      && r.value.addressing.port == (if cs.port.Some? then cs.port.value else DefaultPort)
    ensures BuildSeeds(ReplicaMatches(cs), resolves).Err? ==> r == Err(BuildSeeds(ReplicaMatches(cs), resolves).error)
    ensures BuildSeeds(ReplicaMatches(cs), resolves).Ok? ==>
      r == ChooseClient(cs, BuildSeeds(ReplicaMatches(cs), resolves).value, resolves)
    ensures r.Err? ==> r.error.PortNotNumeric? || (r.error.Io? && r.error.cause.UnknownHost?)
  {
    match BuildSeeds(ReplicaMatches(cs), resolves)
    case Err(e) => Err(e)
    case Ok(seeds) => ChooseClient(cs, seeds, resolves)
  }

  /** The seed scan finds something exactly when the replica-set string is set, is not
      trim-blank and holds a character other than `:` and `,`; so a connection that opens is
      addressed to a replica set exactly then. */
  lemma {:induction false} ReplicaModeIff(cs: ConnectionSettings, resolves: string -> bool)
    ensures ReplicaMatches(cs) != [] <==>
      && cs.replicaSet.Some?
      && (exists k :: 0 <= k < |cs.replicaSet.value| && !TrimSpace(cs.replicaSet.value[k]))
      && (exists k :: 0 <= k < |cs.replicaSet.value| && cs.replicaSet.value[k] != ':' && cs.replicaSet.value[k] != ',')
    ensures OpenConnection(cs, resolves).Ok? ==>
      (OpenConnection(cs, resolves).value.addressing.ReplicaSet? <==> ReplicaMatches(cs) != [])
  {
    if cs.replicaSet.Some? {
      FindAllEmpty(cs.replicaSet.value);
    }
  }

  // ---------------------------------------------------------------- seed lists written out

  /** One seed as a user writes it: a host, and a port or none. */
  datatype SeedSpec = SeedSpec(host: string, port: Option<nat>)

  function SpecText(spec: SeedSpec): string {
    match spec.port
    case None => spec.host
    case Some(p) => spec.host + ":" + ShowNat(p)
  }

  function SpecTexts(specs: seq<SeedSpec>): (r: seq<string>)
    ensures |r| == |specs|
  {
    if specs == [] then [] else [SpecText(specs[0])] + SpecTexts(specs[1..])
  }

  /** A host a user can write into a seed list: not empty, free of `:` and `,`, and with no
      trim-space at either end. */
  predicate PlainHost(h: string) {
    h != [] && ':' !in h && ',' !in h && !TrimSpace(h[0]) && !TrimSpace(h[|h| - 1])
  }

  predicate WellWritten(spec: SeedSpec) {
    PlainHost(spec.host) && (spec.port.Some? ==> spec.port.value <= MaxInt)
  }

  function SpecEndpoint(spec: SeedSpec): Endpoint {
    Endpoint(spec.host, spec.port.GetOr(DefaultPort))
  }

  lemma {:induction false} TrimPlain(h: string)
    requires PlainHost(h)
    ensures Trim(h) == h
  {
    var lo :| CutAt(h, lo, Trim(h));
    assert lo == 0;
  }

  /** The port text a written seed carries. */
  function SpecPortText(spec: SeedSpec): Option<string> {
    match spec.port
    case None => None
    case Some(p) => Some(ShowNat(p))
  }

  lemma {:induction false} SegmentOfSpec(spec: SeedSpec)
    requires PlainHost(spec.host)
    ensures SegmentSeed(SpecText(spec)) == Some(RawSeed(spec.host, SpecPortText(spec)))
  {
    var h := spec.host;
    var t := SpecText(spec);
    assert t[0] == h[0];
    assert LeadingColons(t) == 0;
    assert t[0..] == t;
    assert forall k :: 0 <= k < |h| ==> t[k] == h[k];
    RunIs(t, {':'}, |h|);
    assert t[..|h|] == h;
    if spec.port.Some? {
      assert t[|h| + 1..] == ShowNat(spec.port.value);
    }
  }

  lemma {:induction false} SeedOfSpec(spec: SeedSpec, resolves: string -> bool)
    requires WellWritten(spec) && resolves(spec.host)
    ensures SegmentSeed(SpecText(spec)).Some?
    ensures SeedEndpoint(SegmentSeed(SpecText(spec)).value, resolves) == Ok(SpecEndpoint(spec))
  {
    SegmentOfSpec(spec);
    TrimPlain(spec.host);
    if spec.port.Some? {
      ParseShowNat(spec.port.value);
      assert !TrimSpace(ShowNat(spec.port.value)[0]);
    }
  }

  function SpecEndpoints(specs: seq<SeedSpec>): (r: seq<Endpoint>)
    ensures |r| == |specs| && forall i :: 0 <= i < |specs| ==> r[i] == SpecEndpoint(specs[i])
  {
    seq(|specs|, i requires 0 <= i < |specs| => SpecEndpoint(specs[i]))
  }

  lemma {:induction false} BuildSeedsCons(raw: RawSeed, rest: seq<RawSeed>, resolves: string -> bool, ep: Endpoint, eps: seq<Endpoint>)
    requires SeedEndpoint(raw, resolves) == Ok(ep) && BuildSeeds(rest, resolves) == Ok(eps)
    ensures BuildSeeds([raw] + rest, resolves) == Ok([ep] + eps)
  {
    assert ([raw] + rest)[1..] == rest;
  }

  lemma {:induction false} SpecTextsCons(specs: seq<SeedSpec>)
    requires specs != []
    ensures SegmentSeed(SpecText(specs[0])).Some? ==>
      SegmentSeeds(SpecTexts(specs)) == [SegmentSeed(SpecText(specs[0])).value] + SegmentSeeds(SpecTexts(specs[1..]))
  {
    assert SpecTexts(specs) == [SpecText(specs[0])] + SpecTexts(specs[1..]);
    SegmentSeedsCons(SpecText(specs[0]), SpecTexts(specs[1..]));
  }

  lemma {:induction false} SpecEndpointsCons(specs: seq<SeedSpec>)
    requires specs != []
    ensures SpecEndpoints(specs) == [SpecEndpoint(specs[0])] + SpecEndpoints(specs[1..])
  {
  }

  lemma {:induction false} SeedsOfSpecs(specs: seq<SeedSpec>, resolves: string -> bool)
    requires forall i :: 0 <= i < |specs| ==> WellWritten(specs[i]) && resolves(specs[i].host)
    ensures BuildSeeds(SegmentSeeds(SpecTexts(specs)), resolves) == Ok(SpecEndpoints(specs))
  {
    if specs != [] {
      SeedOfSpec(specs[0], resolves);
      SeedsOfSpecs(specs[1..], resolves);
      SpecTextsCons(specs);
      BuildSeedsCons(SegmentSeed(SpecText(specs[0])).value, SegmentSeeds(SpecTexts(specs[1..])), resolves,
                     SpecEndpoint(specs[0]), SpecEndpoints(specs[1..]));
      SpecEndpointsCons(specs);
    } else {
      assert SpecTexts(specs) == [];
    }
  }

  /** A seed list written as `h1:p1,h2,h3:p3` connects to exactly those hosts, in that order,
      each with its written port or the default one. */
  lemma {:induction false} SeedListRoundTrip(cs: ConnectionSettings, specs: seq<SeedSpec>, resolves: string -> bool)
    requires specs != []
    requires forall i :: 0 <= i < |specs| ==> WellWritten(specs[i]) && resolves(specs[i].host)
    requires cs.replicaSet == Some(JoinSegments(SpecTexts(specs)))
    ensures OpenConnection(cs, resolves)
         == Ok(Client(ReplicaSet(SpecEndpoints(specs)), cs.options))
  {
    MatchesOfSpecs(cs, specs);
    SeedsOfSpecs(specs, resolves);
  }

  /** A written seed list is scanned, and its matches are its seeds' segments. */
  lemma {:induction false} MatchesOfSpecs(cs: ConnectionSettings, specs: seq<SeedSpec>)
    requires specs != []
    requires forall i :: 0 <= i < |specs| ==> WellWritten(specs[i])
    requires cs.replicaSet == Some(JoinSegments(SpecTexts(specs)))
    ensures ReplicaMatches(cs) == SegmentSeeds(SpecTexts(specs))
  {
    var texts := SpecTexts(specs);
    var s := JoinSegments(texts);
    forall i | 0 <= i < |texts|
      ensures ',' !in texts[i]
    {
      SpecTextNoComma(specs, i);
    }
    SegmentsOfJoin(texts);
    FindAllBySegments(s);
    JoinStart(texts);
    assert !TrimSpace(s[0]);
  }

  lemma {:induction false} SpecTextNoComma(specs: seq<SeedSpec>, i: nat)
    requires i < |specs| && WellWritten(specs[i])
    ensures ',' !in SpecTexts(specs)[i]
  {
    if i > 0 {
      assert SpecTexts(specs)[i] == SpecTexts(specs[1..])[i - 1];
      SpecTextNoComma(specs[1..], i - 1);
    } else {
      var t := SpecText(specs[0]);
      if specs[0].port.Some? {
        var d := ShowNat(specs[0].port.value);
        assert forall k :: 0 <= k < |d| ==> IsDigit(d[k]);
      }
    }
  }

  lemma {:induction false} JoinStart(segs: seq<string>)
    requires |segs| >= 1 && segs[0] != []
    ensures JoinSegments(segs) != [] && JoinSegments(segs)[0] == segs[0][0]
  {
  }
}
