/** The edge cases of the replica-set scanner, each pinned to the client `openConnection`
    builds for it. */
module SeedCases {
  import opened Results
  import opened Failures
  import opened JavaText
  import opened Seeds
  import opened Settings
  import opened Connection

  /** Settings that give only a replica-set string. */
  function ReplicaOnly(rs: string): ConnectionSettings {
    ConnectionSettings(None, None, Some(rs), "db", None, None, None, None)
  }

  /** A string with exactly one match connects to that match's address alone, or fails as
      building that address fails. */
  lemma {:induction false} SingleMatch(rs: string, raw: RawSeed, resolves: string -> bool)
    requires ReplicaMatches(ReplicaOnly(rs)) == [raw]
    ensures SeedEndpoint(raw, resolves).Ok? ==>
      OpenConnection(ReplicaOnly(rs), resolves) == Ok(Client(ReplicaSet([SeedEndpoint(raw, resolves).value]), None))
    ensures SeedEndpoint(raw, resolves).Err? ==>
      OpenConnection(ReplicaOnly(rs), resolves) == Err(SeedEndpoint(raw, resolves).error)
  {
    var b := BuildSeeds([raw], resolves);
    if SeedEndpoint(raw, resolves).Ok? {
      assert b.Ok? && |b.value| == 1;
      assert b.value == [SeedEndpoint(raw, resolves).value];
    } else {
      assert BuiltPrefix([raw], resolves) == 0;
    }
  }

  /** A leading colon is skipped: `:27017` is a host named `27017` on the default port. */
  lemma {:induction false} LeadingColonIsSkipped(h: string, resolves: string -> bool)
    requires PlainHost(h)
    ensures resolves(h) ==>
      OpenConnection(ReplicaOnly(":" + h), resolves) == Ok(Client(ReplicaSet([Endpoint(h, DefaultPort)]), None))
    ensures !resolves(h) ==> OpenConnection(ReplicaOnly(":" + h), resolves) == Err(Io(UnknownHost(h)))
  {
    var rs := ":" + h;
    assert rs == [':'] + h;
    assert !TrimSpace(rs[1]);
    FindAllSkipsSeparator(':', h);
    FindAllHostOnly(h);
    TrimPlain(h);
    SingleMatch(rs, RawSeed(h, None), resolves);
  }

  /** A segment of spaces after a comma is a seed whose trimmed host is empty: `a, ` connects
      to `a` and to the empty host name. */
  lemma {:induction false} BlankSegmentGivesEmptyHost(h: string, b: string, resolves: string -> bool)
    requires PlainHost(h) && b != [] && forall k :: 0 <= k < |b| ==> TrimSpace(b[k])
    requires resolves(h) && resolves("")
    ensures OpenConnection(ReplicaOnly(h + "," + b), resolves)
         == Ok(Client(ReplicaSet([Endpoint(h, DefaultPort), Endpoint("", DefaultPort)]), None))
  {
    BlankSegmentMatches(h, b);
    TrimPlain(h);
    assert SeedEndpoint(RawSeed(b, None), resolves) == Ok(Endpoint("", DefaultPort));
    TwoSeedsBuild(RawSeed(h, None), RawSeed(b, None), Endpoint(h, DefaultPort), Endpoint("", DefaultPort), resolves);
  }

  /** The scanner reads `h,b` with `b` all spaces as two host-only matches. */
  lemma {:induction false} BlankSegmentMatches(h: string, b: string)
    requires PlainHost(h) && b != [] && forall k :: 0 <= k < |b| ==> TrimSpace(b[k])
    ensures ReplicaMatches(ReplicaOnly(h + "," + b)) == [RawSeed(h, None), RawSeed(b, None)]
  {
    var rs := h + "," + b;
    assert ':' !in b && ',' !in b by {
      forall k | 0 <= k < |b| ensures b[k] != ':' && b[k] != ',' {
        assert TrimSpace(b[k]);
      }
    }
    FindAllHostThenComma(h, b);
    FindAllHostOnly(b);
    assert !TrimSpace(rs[0]);
  }

  /** Two matches whose addresses both build give a replica-set client of both addresses. */
  lemma {:induction false} TwoSeedsBuild(r0: RawSeed, r1: RawSeed, e0: Endpoint, e1: Endpoint, resolves: string -> bool)
    requires SeedEndpoint(r0, resolves) == Ok(e0) && SeedEndpoint(r1, resolves) == Ok(e1)
    ensures BuildSeeds([r0, r1], resolves) == Ok([e0, e1])
  {
    var raws := [r0, r1];
    assert SeedEndpoint(raws[0], resolves).Ok? && SeedEndpoint(raws[1], resolves).Ok?;
    var b := BuildSeeds(raws, resolves);
    assert b.Ok? && |b.value| == 2;
    assert SeedEndpoint(raws[0], resolves) == Ok(b.value[0]);
    assert SeedEndpoint(raws[1], resolves) == Ok(b.value[1]);
    assert b.value == [e0, e1];
  }

  /** A host followed by a colon is one match whose port text is the rest of the string. */
  lemma {:induction false} HostPortMatches(h: string, p: string)
    requires h != [] && ':' !in h && ',' !in h && ',' !in p && !TrimSpace(h[0])
    ensures ReplicaMatches(ReplicaOnly(h + ":" + p)) == [RawSeed(h, Some(p))]
  {
    FindAllHostPort(h, p);
    assert (h + ":" + p)[0] == h[0];
  }

  /** An empty port text falls back to the default port: `h:` is `h` on 27017. */
  lemma {:induction false} EmptyPortDefaults(h: string, resolves: string -> bool)
    requires PlainHost(h) && resolves(h)
    ensures OpenConnection(ReplicaOnly(h + ":"), resolves) == Ok(Client(ReplicaSet([Endpoint(h, DefaultPort)]), None))
  {
    assert h + ":" == h + ":" + "";
    HostPortMatches(h, "");
    TrimPlain(h);
    assert BlankPort(Some(""));
    SingleMatch(h + ":", RawSeed(h, Some("")), resolves);
  }

  /** A port text that is not blank and does not parse ends the scan with its own text. */
  lemma {:induction false} UnparsablePort(h: string, p: string, resolves: string -> bool)
    requires h != [] && ':' !in h && ',' !in h && ',' !in p && !TrimSpace(h[0])
    requires Trim(p) != [] && ParseInt(p).None?
    ensures OpenConnection(ReplicaOnly(h + ":" + p), resolves) == Err(PortNotNumeric(p))
  {
    HostPortMatches(h, p);
    SingleMatch(h + ":" + p, RawSeed(h, Some(p)), resolves);
  }

  /** The port text runs to the next comma, so a second colon is part of it and makes it
      unparsable: `h:1:2` fails with the port text `1:2`. */
  lemma {:induction false} SecondColonIsPortText(h: string, p: string, q: string, resolves: string -> bool)
    requires PlainHost(h) && ',' !in p && ',' !in q
    ensures OpenConnection(ReplicaOnly(h + ":" + p + ":" + q), resolves) == Err(PortNotNumeric(p + ":" + q))
  {
    var port := p + ":" + q;
    assert port[|p|] == ':';
    assert h + ":" + p + ":" + q == h + ":" + port;
    assert !TrimSpace(port[|p|]);
    UnparsablePort(h, port, resolves);
  }

  /** The port text is parsed untrimmed: `h: 1` fails with the port text ` 1`, although `1`
      would parse. */
  lemma {:induction false} PortIsNotTrimmed(h: string, d: string, resolves: string -> bool)
    requires PlainHost(h) && d != [] && AllDigits(d)
    ensures OpenConnection(ReplicaOnly(h + ": " + d), resolves) == Err(PortNotNumeric(" " + d))
  {
    var port := " " + d;
    assert port[1] == d[0];
    assert h + ": " + d == h + ":" + port;
    assert ',' !in port by {
      forall k | 0 <= k < |port| ensures port[k] != ',' {
        if k > 0 {
          assert port[k] == d[k - 1];
        }
      }
    }
    ParseIntRejectsSpace(port, 0);
    UnparsablePort(h, port, resolves);
  }

  /** A string of colons and commas only finds no seed, and the single default host on the
      default port is used. */
  lemma {:induction false} SeparatorsOnlyFallBack(rs: string, resolves: string -> bool)
    requires forall k :: 0 <= k < |rs| ==> rs[k] == ':' || rs[k] == ','
    ensures OpenConnection(ReplicaOnly(rs), resolves) == Ok(Client(SingleHost(None, DefaultPort), None))
  {
    FindAllEmpty(rs);
  }
}
