/** What a leg says of its build and its machine, and the fields of it that are
    guarded. */
module Fingerprints {
  import opened Wrappers
  import opened Decimal
  import opened Compare

  /** The fields of a build fingerprint the guard reads. */
  datatype Fingerprint = Fingerprint(
    protocol: nat, rustc: Option<string>, hostTriple: Option<string>,
    profile: Option<string>, codegen: Option<string>, features: seq<string>)

  datatype Host = Host(os: string, cpu: string, cores: nat, hostLabel: string)

  function OrEmpty(s: Option<string>): string {
    if s.Some? then s.value else ""
  }

  function Join(parts: seq<string>): string {
    if parts == [] then "" else if |parts| == 1 then parts[0] else parts[0] + "," + Join(parts[1..])
  }

  /** Build and machine in one map, every name inserted whatever was recorded. */
  function GuardedFields(build: Fingerprint, host: Host): map<string, string> {
    map["protocol" := Print(build.protocol), "rustc" := OrEmpty(build.rustc),
        "host_triple" := OrEmpty(build.hostTriple), "profile" := OrEmpty(build.profile),
        "codegen" := OrEmpty(build.codegen), FIELD_FEATURES := Join(build.features)]
    + map["host_os" := host.os, "host_cpu" := host.cpu,
          "host_cores" := Print(host.cores), "host_label" := host.hostLabel]
  }

  lemma SameNames(x: Fingerprint, xHost: Host, y: Fingerprint, yHost: Host)
    ensures GuardedFields(x, xHost).Keys == GuardedFields(y, yHost).Keys
  {
  }

  const NAMES := {
    "protocol", "rustc", "host_triple", "profile", "codegen", "features",
    "host_os", "host_cpu", "host_cores", "host_label"}

  lemma PrintTellsApart(m: nat, n: nat)
    ensures Print(m) == Print(n) <==> m == n
  {
    ValueOfPrint(m);
    ValueOfPrint(n);
  }

  lemma NamesAreDistinct()
    ensures "protocol" != "features" && "protocol" != "host_cpu" && "features" != "host_cpu"
    ensures "profile" != "codegen" && "profile" != "host_os" && "codegen" != "host_os"
    ensures "host_cores" != "host_label"
  {
    assert "protocol"[0] == 'p' && "features"[0] == 'f' && "host_cpu"[0] == 'h';
    assert "profile"[0] == 'p' && "codegen"[0] == 'c' && "host_os"[0] == 'h';
    assert "host_cores"[5] == 'c' && "host_label"[5] == 'l';
  }

  lemma BuildFields(x: Fingerprint, h: Host)
    ensures var m := GuardedFields(x, h);
      && "protocol" in m && m["protocol"] == Print(x.protocol) && "rustc" in m && m["rustc"] == OrEmpty(x.rustc)
      && "host_triple" in m && m["host_triple"] == OrEmpty(x.hostTriple)
      && "profile" in m && m["profile"] == OrEmpty(x.profile)
      && "codegen" in m && m["codegen"] == OrEmpty(x.codegen)
      && "features" in m && m["features"] == Join(x.features)
  {
    NamesAreDistinct();
  }

  lemma HostFields(x: Fingerprint, h: Host)
    ensures var m := GuardedFields(x, h);
      && "host_os" in m && m["host_os"] == h.os && "host_cpu" in m && m["host_cpu"] == h.cpu
      && "host_cores" in m && m["host_cores"] == Print(h.cores)
      && "host_label" in m && m["host_label"] == h.hostLabel
  {
    NamesAreDistinct();
  }

  lemma OnlyTheNames(x: Fingerprint, h: Host, f: string)
    ensures f in GuardedFields(x, h) <==> f in NAMES
  {
  }

  lemma FieldDiverges(fields: map<string, string>, theirs: map<string, string>, f: string)
    requires f in fields && f in theirs
    ensures f in Divergences(fields, theirs) <==> fields[f] != theirs[f]
  {
  }

  /** Two legs diverge in a name exactly when they differ in what it names, a build
      field not recorded standing for the empty string; and in no other name. */
  lemma DivergesIffDiffers(x: Fingerprint, xHost: Host, y: Fingerprint, yHost: Host)
    ensures var d := Divergences(GuardedFields(x, xHost), GuardedFields(y, yHost));
      && d <= NAMES
      && ("protocol" in d <==> x.protocol != y.protocol) && ("rustc" in d <==> OrEmpty(x.rustc) != OrEmpty(y.rustc))
      && ("host_triple" in d <==> OrEmpty(x.hostTriple) != OrEmpty(y.hostTriple))
      && ("profile" in d <==> OrEmpty(x.profile) != OrEmpty(y.profile))
      && ("codegen" in d <==> OrEmpty(x.codegen) != OrEmpty(y.codegen))
      && ("features" in d <==> Join(x.features) != Join(y.features))
      && ("host_os" in d <==> xHost.os != yHost.os) && ("host_cpu" in d <==> xHost.cpu != yHost.cpu)
      && ("host_cores" in d <==> xHost.cores != yHost.cores)
      && ("host_label" in d <==> xHost.hostLabel != yHost.hostLabel)
  {
    var mine, theirs := GuardedFields(x, xHost), GuardedFields(y, yHost);
    forall f | f in Divergences(mine, theirs)
      ensures f in NAMES
    {
      OnlyTheNames(x, xHost, f);
    }
    BuildDiverges(x, xHost, y, yHost, mine, theirs);
    HostDiverges(x, xHost, y, yHost, mine, theirs);
  }

  lemma BuildDiverges(x: Fingerprint, xHost: Host, y: Fingerprint, yHost: Host,
                      mine: map<string, string>, theirs: map<string, string>)
    requires mine == GuardedFields(x, xHost) && theirs == GuardedFields(y, yHost)
    ensures var d := Divergences(mine, theirs);
      && ("protocol" in d <==> x.protocol != y.protocol) && ("rustc" in d <==> OrEmpty(x.rustc) != OrEmpty(y.rustc))
      && ("host_triple" in d <==> OrEmpty(x.hostTriple) != OrEmpty(y.hostTriple))
      && ("profile" in d <==> OrEmpty(x.profile) != OrEmpty(y.profile))
      && ("codegen" in d <==> OrEmpty(x.codegen) != OrEmpty(y.codegen))
      && ("features" in d <==> Join(x.features) != Join(y.features))
  {
    PrintTellsApart(x.protocol, y.protocol);
    BuildFields(x, xHost);
    BuildFields(y, yHost);
    forall f | f in mine && f in theirs
      ensures f in Divergences(mine, theirs) <==> mine[f] != theirs[f]
    {
      FieldDiverges(mine, theirs, f);
    }
  }

  lemma HostDiverges(x: Fingerprint, xHost: Host, y: Fingerprint, yHost: Host,
                     mine: map<string, string>, theirs: map<string, string>)
    requires mine == GuardedFields(x, xHost) && theirs == GuardedFields(y, yHost)
    ensures var d := Divergences(mine, theirs);
      && ("host_os" in d <==> xHost.os != yHost.os) && ("host_cpu" in d <==> xHost.cpu != yHost.cpu)
      && ("host_cores" in d <==> xHost.cores != yHost.cores)
      && ("host_label" in d <==> xHost.hostLabel != yHost.hostLabel)
  {
    PrintTellsApart(xHost.cores, yHost.cores);
    HostFields(x, xHost);
    HostFields(y, yHost);
    forall f | f in mine && f in theirs
      ensures f in Divergences(mine, theirs) <==> mine[f] != theirs[f]
    {
      FieldDiverges(mine, theirs, f);
    }
  }

  // ---- feature lists ----

  predicate IsFeature(s: string) {
    s != "" && ',' !in s
  }

  /** Lists of feature names are told apart by their joined text. */
  lemma {:induction false} JoinTellsApart(xs: seq<string>, ys: seq<string>)
    requires (forall x | x in xs :: IsFeature(x)) && forall y | y in ys :: IsFeature(y)
    ensures Join(xs) == Join(ys) <==> xs == ys
    decreases |xs|, 1
  {
    if xs != [] && ys != [] {
      assert IsFeature(xs[0]) && IsFeature(ys[0]);
      if Join(xs) == Join(ys) {
        FirstFeature(xs);
        FirstFeature(ys);
        HeadsAgree(xs[0], ys[0], Rest(xs), Rest(ys));
        RestTellsApart(xs, ys);
      }
    } else {
      JoinIsEmptyIff(xs);
      JoinIsEmptyIff(ys);
    }
  }

  lemma JoinIsEmptyIff(xs: seq<string>)
    requires forall x | x in xs :: IsFeature(x)
    ensures Join(xs) == "" <==> xs == []
  {
    if xs != [] {
      assert IsFeature(xs[0]);
    }
  }

  /** What follows the first feature, with the comma before it. */
  function Rest(xs: seq<string>): string
    requires xs != []
  {
    if |xs| == 1 then "" else "," + Join(xs[1..])
  }

  lemma FirstFeature(xs: seq<string>)
    requires xs != []
    ensures Join(xs) == xs[0] + Rest(xs)
  {
    if |xs| == 1 {
      assert xs[0] + "" == xs[0];
    } else {
      assert xs[0] + "," + Join(xs[1..]) == xs[0] + ("," + Join(xs[1..]));
    }
  }

  lemma CommaInside(a: string, b: string, u: string, v: string)
    requires a + u == b + v && |a| < |b| && (u == "" || u[0] == ',')
    ensures ',' in b
  {
    assert |a + u| == |b + v|;
    assert (a + u)[|a|] == u[0] && (b + v)[|a|] == b[|a|];
  }

  /** The first comma ends the first feature. */
  lemma HeadsAgree(a: string, b: string, u: string, v: string)
    requires ',' !in a && ',' !in b && a + u == b + v
    requires (u == "" || u[0] == ',') && (v == "" || v[0] == ',')
    ensures a == b && u == v
  {
    if |a| < |b| {
      CommaInside(a, b, u, v);
    } else if |b| < |a| {
      CommaInside(b, a, v, u);
    }
    assert a == (a + u)[..|a|] && b == (b + v)[..|b|];
    assert u == (a + u)[|a|..] && v == (b + v)[|b|..];
  }

  lemma RestTellsApart(xs: seq<string>, ys: seq<string>)
    requires xs != [] && ys != [] && xs[0] == ys[0] && Rest(xs) == Rest(ys)
    requires (forall x | x in xs :: IsFeature(x)) && forall y | y in ys :: IsFeature(y)
    ensures xs == ys
    decreases |xs|, 0
  {
    if |xs| > 1 && |ys| > 1 {
      assert Join(xs[1..]) == Rest(xs)[1..] && Join(ys[1..]) == Rest(ys)[1..];
      JoinTellsApart(xs[1..], ys[1..]);
      assert xs == [xs[0]] + xs[1..] && ys == [ys[0]] + ys[1..];
    }
  }
}
