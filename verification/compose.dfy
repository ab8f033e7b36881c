/** `convert_xml_to_compose`: the compose document around the parsed
    service, or the parse error's message instead of any document. */
module Compose {
  import opened Wrappers
  import opened Xml
  import opened Yaml
  import opened OrderedMap
  import opened Configs
  import opened ServiceRecord
  import opened Template
  import opened Text
  import opened Flags

  const ComposeVersion := "3.8"

  /** The `networks` section: each network marked as external. */
  function ExternalNetworks(networks: seq<string>): (entries: seq<(Value, Value)>)
    ensures Keys(entries) == Strs(networks)
    ensures forall i :: 0 <= i < |entries| ==> entries[i].1 == Map([(Str("external"), Bool(true))])
  {
    seq(|networks|, i requires 0 <= i < |networks| => (Str(networks[i]), Map([(Str("external"), Bool(true))])))
  }

  /** The top-level document: `version`, `services` with the single service
      keyed by the container name, and `networks` only when there is one. */
  function Document(p: Parsed): (d: Value)
    ensures d.Map?
    ensures Keys(d.entries) == [Str("version"), Str("services")] + (if p.networks != [] then [Str("networks")] else [])
    ensures Get(d.entries, Str("version")) == Some(Str(ComposeVersion))
    ensures Get(d.entries, Str("services")) == Some(Map([(Scalar(p.name), Map(Render(p.service)))]))
    ensures Get(d.entries, Str("networks")) == if p.networks != [] then Some(Map(ExternalNetworks(p.networks))) else None
  {
    var services := [(Scalar(p.name), Map(Render(p.service)))];
    var base := [(Str("version"), Str(ComposeVersion)), (Str("services"), Map(services))];
    var entries := base + if p.networks != [] then [(Str("networks"), Map(ExternalNetworks(p.networks)))] else [];
    assert entries[0] == (Str("version"), Str(ComposeVersion));
    assert entries[1] == (Str("services"), Map(services));
    assert entries[1..][1..] == if p.networks != [] then [(Str("networks"), Map(ExternalNetworks(p.networks)))] else [];
    Map(entries)
  }

  /** The conversion's outcome: the message of the first error the parse
      meets and no document at all, or a document whose only service is
      keyed by the Name text. The message of each error is stated by the
      four lemmas after it. */
  function Convert(input: XmlInput): (r: Result<Value, string>)
    ensures r.Success? <==> && input.Wellformed? && Find(input.root, "Name").Some? && Find(input.root, "Repository").Some?
                            && !SharesOverLimit(input.root)
    ensures r.Success? ==> ConvertedService(input.root, r.value)
  {
    match Parse(input)
    case Failure(e) => Failure(e.Message())
    case Success(p) =>
      DocumentService(input.root);
      Success(Document(p))
  }

  /** Unparseable XML gives the parser's reason after a fixed prefix. */
  lemma ConvertMalformed(reason: string)
    ensures Convert(Malformed(reason)) == Failure("Invalid XML data: " + reason)
  {
    assert Parse(Malformed(reason)) == Failure(InvalidXml(reason));
  }

  /** A descriptor without a Name element is refused with a fixed message. */
  lemma ConvertNoName(root: Element)
    requires Find(root, "Name").None?
    ensures Convert(Wellformed(root)) == Failure("Container name not found in XML")
  {
    assert Parse(Wellformed(root)) == Failure(NameNotFound);
  }

  /** A descriptor with a Name but no Repository element is refused with a
      fixed message. */
  lemma ConvertNoRepository(root: Element)
    requires Find(root, "Name").Some? && Find(root, "Repository").None?
    ensures Convert(Wellformed(root)) == Failure("Repository (image) not found in XML")
  {
    assert Parse(Wellformed(root)) == Failure(RepositoryNotFound);
  }

  /** A descriptor with both required elements but a cpu-shares value of
      more digits than `int()` converts is refused with the interpreter's
      message, which carries the digit count. */
  lemma ConvertDigitLimit(root: Element)
    requires Find(root, "Name").Some? && Find(root, "Repository").Some? && SharesOverLimit(root)
    ensures Convert(Wellformed(root)) == Failure(DigitLimitMessage(|CpuShares(ExtraParams(root)).value|))
  {
    assert Parse(Wellformed(root)) == Failure(DigitLimit(|CpuShares(ExtraParams(root)).value|));
  }

  /** A parsed descriptor's document holds its one service under the Name
      text. */
  lemma DocumentService(root: Element)
    ensures Parse(Wellformed(root)).Success? ==> ConvertedService(root, Document(Parse(Wellformed(root)).value))
  {
  }

  /** `d` is a mapping whose `services` entry holds one service, keyed by
      the Name text and built from the descriptor. */
  predicate ConvertedService(root: Element, d: Value)
    requires Find(root, "Name").Some? && Find(root, "Repository").Some?
  {
    var name := Find(root, "Name").value.text;
    && d.Map?
    && Get(d.entries, Str("services"))
       == Some(Map([(Scalar(name), Map(Render(BuildService(root, name, Find(root, "Repository").value.text))))]))
  }

  /** A descriptor with Name and Repository, and no over-long cpu-shares
      value, yields a document whose only service is keyed by the Name text
      and carries the Repository text as its image; otherwise there is an
      error and no document. */
  lemma ConvertServiceKeyedByName(root: Element)
    ensures Convert(Wellformed(root)).Failure?
            <==> Find(root, "Name").None? || Find(root, "Repository").None? || SharesOverLimit(root)
    ensures Convert(Wellformed(root)).Success? ==>
              var d := Convert(Wellformed(root)).value;
              var service := BuildService(root, Find(root, "Name").value.text, Find(root, "Repository").value.text);
              && Get(d.entries, Str("services")) == Some(Map([(Scalar(Find(root, "Name").value.text), Map(Render(service)))]))
              && Get(Render(service), Str("image")) == Some(Scalar(Find(root, "Repository").value.text))
              && Get(Render(service), Str("container_name")) == Some(Scalar(Find(root, "Name").value.text))
  {
    if Convert(Wellformed(root)).Success? {
      var name := Find(root, "Name").value.text;
      var image := Find(root, "Repository").value.text;
      RequiredKeys(ReadSettings(root), name, image);
    }
  }

  /** The network list `parse_xml_data` returns: the Network text when it
      is not a built-in mode, otherwise nothing. */
  lemma ParsedNetworks(root: Element)
    ensures Parse(Wellformed(root)).Success? ==>
              var net := NonEmptyText(root, "Network");
              Parse(Wellformed(root)).value.networks
              == if net.Some? && Lower(net.value) !in NetworkModes then [net.value] else []
  {
    if Parse(Wellformed(root)).Success? {
      ExternalNetwork(root, Find(root, "Name").value.text, Find(root, "Repository").value.text);
    }
  }

  /** The top-level `networks` section exists exactly when the Network text
      names an external network, and then it marks that one network
      external. */
  lemma ConvertNetworksSection(root: Element)
    ensures Convert(Wellformed(root)).Success? ==>
              var d := Convert(Wellformed(root)).value;
              var net := NonEmptyText(root, "Network");
              && d.Map?
              && Get(d.entries, Str("networks"))
                 == if net.Some? && Lower(net.value) !in NetworkModes
                    then Some(Map([(Str(net.value), Map([(Str("external"), Bool(true))]))]))
                    else None
  {
    if Convert(Wellformed(root)).Success? {
      ParsedNetworks(root);
      var parsed := Parse(Wellformed(root)).value;
      ConvertsToDocument(root);
      if parsed.networks != [] {
        SingleExternal(parsed.networks[0]);
      }
    }
  }

  lemma SingleExternal(n: string)
    ensures ExternalNetworks([n]) == [(Str(n), Map([(Str("external"), Bool(true))]))]
  {
  }

  lemma ConvertsToDocument(root: Element)
    ensures Parse(Wellformed(root)).Success? ==> Convert(Wellformed(root)) == Success(Document(Parse(Wellformed(root)).value))
  {
  }

  /** Every volume and port string contains a colon, so the registered
      representer always emits them double-quoted. */
  lemma {:induction false} VolumesAndPortsDoubleQuoted(configs: seq<Element>)
    ensures forall v :: v in Volumes(configs) ==> StyleOf(v) == DoubleQuoted
    ensures forall v :: v in Ports(configs) ==> StyleOf(v) == DoubleQuoted
  {
    if configs != [] {
      VolumesAndPortsDoubleQuoted(configs[1..]);
      var c := ContributionOf(configs[0]);
      if c.Volume? || c.PortMapping? {
        var host := configs[0].text.value;
        assert c.spec[|host|] == ':';
        assert c.spec[|host|] in QuoteTriggers;
      }
    }
  }

  // A worked descriptor: a plex container with one TCP port.

  const PlexPort := Element("Config", map["Type" := "Port", "Target" := "32400", "Mode" := "tcp"], Some("32400"), [])
  const PlexRoot := Element("Container", map[], None, [
    Element("Name", map[], Some("plex"), []),
    Element("Repository", map[], Some("plexinc/pms"), []),
    PlexPort])

  lemma PlexAttributes()
    ensures Attr(PlexPort, "Type") == Some("Port")
    ensures Attr(PlexPort, "Target") == Some("32400")
    ensures ModeOf(PlexPort) == "tcp"
  {
  }

  lemma PlexPortSpec()
    ensures ContributionOf(PlexPort) == PortMapping("32400:32400/tcp")
    ensures Collect([PlexPort]) == Collected([], [], ["32400:32400/tcp"])
  {
    PlexAttributes();
    assert OccursAt("tcp", "tcp", 0);
    assert PortSpec("32400", "32400", "tcp") == "32400:32400/tcp";
    assert [PlexPort][..0] == [];
  }

  lemma PlexElements()
    ensures Find(PlexRoot, "Name") == Some(PlexRoot.children[0])
    ensures Find(PlexRoot, "Repository") == Some(PlexRoot.children[1])
    ensures FindAll(PlexRoot, "Config") == [PlexPort]
    ensures Find(PlexRoot, "ExtraParams") == None
  {
    var cs := PlexRoot.children;
    assert forall j :: 0 <= j < |cs| ==> cs[j].tag[0] != "ExtraParams"[0];
    assert "Name" != "Config" by { assert "Name"[0] != "Config"[0]; }
    assert "Repository" != "Config" by { assert "Repository"[0] != "Config"[0]; }
    assert cs[1..][1..] == [PlexPort];
    assert cs[1..][1..][1..] == [];
    assert WithTag(cs[1..][1..], "Config") == [PlexPort];
    assert WithTag(cs[1..], "Config") == [PlexPort];
  }

  /** What the plex descriptor's Config loop produces. */
  lemma PlexCollections()
    ensures ReadSettings(PlexRoot).collected == Collected([], [], ["32400:32400/tcp"])
  {
    PlexElements();
    PlexPortSpec();
  }

  /** The plex descriptor converts to a document whose single service is
      keyed `plex`. */
  lemma PlexDocument()
    ensures Convert(Wellformed(PlexRoot)).Success?
    ensures var d := Convert(Wellformed(PlexRoot)).value;
            var service := BuildService(PlexRoot, Some("plex"), Some("plexinc/pms"));
            Get(d.entries, Str("services")) == Some(Map([(Str("plex"), Map(Render(service)))]))
  {
    PlexElements();
    assert ExtraParams(PlexRoot) == "";
    assert !SharesOverLimit(PlexRoot);
    ConvertServiceKeyedByName(PlexRoot);
  }

  /** ... and that service publishes `32400:32400/tcp` ... */
  lemma PlexPorts()
    ensures Get(Render(BuildService(PlexRoot, Some("plex"), Some("plexinc/pms"))), Str("ports"))
            == Some(List([Str("32400:32400/tcp")]))
  {
    PlexCollections();
    PlexServiceCollections(ReadSettings(PlexRoot), Some("plex"), Some("plexinc/pms"));
  }

  /** ... and has no volumes and no environment. */
  lemma PlexNoVolumesOrEnvironment()
    ensures var m := Render(BuildService(PlexRoot, Some("plex"), Some("plexinc/pms")));
            Get(m, Str("volumes")) == None && Get(m, Str("environment")) == None
  {
    PlexCollections();
    PlexServiceCollections(ReadSettings(PlexRoot), Some("plex"), Some("plexinc/pms"));
  }

  /** The rendered collections of any service whose Config loop produced
      the plex descriptor's one port. */
  lemma PlexServiceCollections(st: Settings, name: Option<string>, image: Option<string>)
    requires st.collected == Collected([], [], ["32400:32400/tcp"])
    ensures var m := Render(Assemble(st, name, image));
            && Get(m, Str("ports")) == Some(List([Str("32400:32400/tcp")]))
            && Get(m, Str("volumes")) == None
            && Get(m, Str("environment")) == None
  {
    var s := Assemble(st, name, image);
    RenderGet(s, "ports");
    RenderGet(s, "volumes");
    RenderGet(s, "environment");
    assert Strs(["32400:32400/tcp"]) == [Str("32400:32400/tcp")];
  }
}
