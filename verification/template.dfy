/** `parse_xml_data`: from the descriptor's element tree to the container
    name, the compose service and the list of external networks. */
module Template {
  import opened Wrappers
  import opened Text
  import opened Xml
  import opened OrderedMap
  import opened Flags
  import opened Configs
  import opened ServiceRecord
  import opened Yaml

  datatype ParseError =
    | InvalidXml(reason: string)
    | NameNotFound
    | RepositoryNotFound
    | DigitLimit(digits: nat)
  {
    /** The text of the exception the source raises. */
    function Message(): string {
      match this
      case InvalidXml(reason) => "Invalid XML data: " + reason
      case NameNotFound => "Container name not found in XML"
      case RepositoryNotFound => "Repository (image) not found in XML"
      case DigitLimit(digits) => DigitLimitMessage(digits)
    }
  }

  /** The default cap on the number of digits `int()` converts from a
      string (`sys.get_int_max_str_digits()` in CPython 3.11 and later, and
      in the security releases of 3.7 to 3.10). */
  const IntMaxStrDigits: nat := 4300

  /** The cap as it is printed in the message. */
  const IntMaxStrDigitsText := "4300"

  /** The printed cap is the decimal form of the cap. */
  lemma IntMaxStrDigitsPrinted()
    ensures DecimalString(IntMaxStrDigits) == IntMaxStrDigitsText
  {
  }

  /** The `ValueError` text `int()` raises for a string of `digits` digits
      over the cap. */
  function DigitLimitMessage(digits: nat): string {
    "Exceeds the limit (" + IntMaxStrDigitsText
    + " digits) for integer string conversion: value has " + DecimalString(digits)
    + " digits; use sys.set_int_max_str_digits() to increase the limit"
  }

  /** The captured `--cpu-shares=` digits are more than `int()` converts. */
  predicate SharesOverLimit(root: Element) {
    var shares := CpuShares(ExtraParams(root));
    shares.Some? && |shares.value| > IntMaxStrDigits
  }

  /** What the source returns: the container name (`None` when the Name
      element is empty), the service, and the external networks. */
  datatype Parsed = Parsed(name: Option<string>, service: Service, networks: seq<string>)

  const Restart := "unless-stopped"
  const NetworkModes: seq<string> := ["host", "bridge", "none"]

  /** `Privileged` text that lower-cases to `true`: four characters that
      match `true` ignoring case. */
  function PrivilegedFlag(root: Element): (b: bool)
    ensures b <==> && Find(root, "Privileged").Some?
                   && Find(root, "Privileged").value.text.Some?
                   && |Find(root, "Privileged").value.text.value| == 4
                   && forall i :: 0 <= i < 4 ==> LowerChar(Find(root, "Privileged").value.text.value[i]) == "true"[i]
  {
    match NonEmptyText(root, "Privileged")
    case None => false
    case Some(t) =>
      assert |t| == 4 && (forall i :: 0 <= i < 4 ==> LowerChar(t[i]) == "true"[i]) ==> Lower(t) == "true";
      Lower(t) == "true"
  }

  /** The network choice: a built-in mode, or one external network. */
  datatype NetworkChoice = NetworkChoice(mode: Option<string>, networks: seq<string>)

  function ChooseNetwork(root: Element): (n: NetworkChoice)
    ensures n.mode.None? || n.networks == []
    ensures n.mode.Some? ==> n.mode.value in NetworkModes
    ensures |n.networks| <= 1
    ensures n.mode.Some? <==> NonEmptyText(root, "Network").Some? && Lower(NonEmptyText(root, "Network").value) in NetworkModes
    ensures n.mode.Some? ==> n.mode.value == Lower(NonEmptyText(root, "Network").value)
    ensures n.networks != [] <==> NonEmptyText(root, "Network").Some? && Lower(NonEmptyText(root, "Network").value) !in NetworkModes
    ensures n.networks != [] ==> n.networks[0] == NonEmptyText(root, "Network").value
  {
    match NonEmptyText(root, "Network")
    case None => NetworkChoice(None, [])
    case Some(t) =>
      if Lower(t) in NetworkModes then NetworkChoice(Some(Lower(t)), [])
      else NetworkChoice(None, [t])
  }

  /** Where cpuset and the cpu/memory limits go: cpuset always stays a
      top-level key, and `deploy.resources.limits` exists exactly when a cpu
      or memory limit was found, holding just those. */
  datatype Placement = Placement(cpuset: Option<string>, deploy: Option<Limits>)

  function PlaceResources(cpus: Option<string>, memory: Option<string>, cpuset: Option<string>): (p: Placement)
    ensures p.cpuset == cpuset
    ensures p.deploy.Some? <==> cpus.Some? || memory.Some?
    ensures p.deploy.Some? ==> p.deploy.value.cpus == cpus && p.deploy.value.memory == memory
  {
    if cpus.Some? || memory.Some? || cpuset.Some? then
      if cpus.None? && memory.None? && cpuset.Some? then
        Placement(cpuset, None)
      else
        // The conditionals mirror the source's `if cpu_limit:` and
        // `if memory_limit:` assignments, which copy the value unchanged.
        var limits := Limits(if cpus.Some? then cpus else None, if memory.Some? then memory else None);
        var deploy := if limits != Limits(None, None) then Some(limits) else None;
        Placement(if cpuset.Some? then cpuset else None, deploy)
    else
      Placement(None, None)
  }

  const WebUILabel := "unraid.webui"
  const SupportLabel := "unraid.support"
  const ProjectLabel := "unraid.project"

  /** Assigns a documentation label when its element has text. */
  function AddLabel(labels: seq<(string, string)>, key: string, text: Option<string>): seq<(string, string)> {
    match text
    case None => labels
    case Some(t) => Put(labels, key, t)
  }

  /** The labels dict, assigned webui, support, project in that order. */
  function LabelsOf(webui: Option<string>, support: Option<string>, project: Option<string>): seq<(string, string)> {
    AddLabel(AddLabel(AddLabel([], WebUILabel, webui), SupportLabel, support), ProjectLabel, project)
  }

  /** The entry a label contributes: one pair when its text is present. */
  function LabelEntry(key: string, text: Option<string>): seq<(string, string)> {
    if text.Some? then [(key, text.value)] else []
  }

  /** The three label names differ (at their eighth character). */
  lemma LabelKeysDiffer()
    ensures WebUILabel != SupportLabel && WebUILabel != ProjectLabel && SupportLabel != ProjectLabel
  {
    assert WebUILabel[7] != SupportLabel[7] && WebUILabel[7] != ProjectLabel[7] && SupportLabel[7] != ProjectLabel[7];
  }

  /** A label assigned for the first time appends its entry. */
  lemma AddNewLabel(labels: seq<(string, string)>, key: string, text: Option<string>)
    requires key !in Keys(labels)
    ensures AddLabel(labels, key, text) == labels + LabelEntry(key, text)
  {
    if text.Some? { PutNew(labels, key, text.value); }
  }

  /** Neither later label is among the keys assigned before it. */
  lemma LaterLabelsFresh(webui: Option<string>, support: Option<string>)
    ensures SupportLabel !in Keys(LabelEntry(WebUILabel, webui))
    ensures ProjectLabel !in Keys(LabelEntry(WebUILabel, webui) + LabelEntry(SupportLabel, support))
  {
    LabelKeysDiffer();
    EntriesKeys(webui, support, None);
    assert LabelEntry(WebUILabel, webui) + LabelEntry(SupportLabel, support) + LabelEntry(ProjectLabel, None)
           == LabelEntry(WebUILabel, webui) + LabelEntry(SupportLabel, support);
  }

  /** The three label keys are distinct, so each assignment is new and
      appends its entry. */
  lemma LabelsAppend(webui: Option<string>, support: Option<string>, project: Option<string>)
    ensures LabelsOf(webui, support, project)
            == LabelEntry(WebUILabel, webui) + LabelEntry(SupportLabel, support) + LabelEntry(ProjectLabel, project)
  {
    var e1 := LabelEntry(WebUILabel, webui);
    var e2 := LabelEntry(SupportLabel, support);
    LaterLabelsFresh(webui, support);
    AddNewLabel([], WebUILabel, webui);
    assert [] + e1 == e1;
    AddNewLabel(e1, SupportLabel, support);
    AddNewLabel(e1 + e2, ProjectLabel, project);
  }

  /** The appended entries carry the present labels in assignment order. */
  lemma EntriesKeys(webui: Option<string>, support: Option<string>, project: Option<string>)
    ensures Keys(LabelEntry(WebUILabel, webui) + LabelEntry(SupportLabel, support) + LabelEntry(ProjectLabel, project))
            == (if webui.Some? then [WebUILabel] else [])
             + (if support.Some? then [SupportLabel] else [])
             + (if project.Some? then [ProjectLabel] else [])
  {
  }

  /** Reading the appended entries back: each label sits in its own
      entry, which no earlier entry shadows. */
  lemma EntriesGet(e1: seq<(string, string)>, e2: seq<(string, string)>, e3: seq<(string, string)>, key: string, text: Option<string>)
    requires e2 == LabelEntry(key, text)
    requires key !in Keys(e1) && key !in Keys(e3)
    ensures Get(e1 + e2 + e3, key) == text
  {
    GetAppend(e1, e2 + e3, key);
    GetAppend(e2, e3, key);
    assert e1 + e2 + e3 == e1 + (e2 + e3);
  }

  lemma EntriesWebUI(webui: Option<string>, support: Option<string>, project: Option<string>)
    ensures Get(LabelEntry(WebUILabel, webui) + LabelEntry(SupportLabel, support) + LabelEntry(ProjectLabel, project), WebUILabel) == webui
  {
    LabelKeysDiffer();
    var e1 := LabelEntry(WebUILabel, webui);
    var rest := LabelEntry(SupportLabel, support) + LabelEntry(ProjectLabel, project);
    EntriesGet([], e1, rest, WebUILabel, webui);
    assert [] + e1 + rest == e1 + LabelEntry(SupportLabel, support) + LabelEntry(ProjectLabel, project);
  }

  lemma EntriesSupport(webui: Option<string>, support: Option<string>, project: Option<string>)
    ensures Get(LabelEntry(WebUILabel, webui) + LabelEntry(SupportLabel, support) + LabelEntry(ProjectLabel, project), SupportLabel) == support
  {
    LabelKeysDiffer();
    EntriesGet(LabelEntry(WebUILabel, webui), LabelEntry(SupportLabel, support), LabelEntry(ProjectLabel, project), SupportLabel, support);
  }

  lemma EntriesProject(webui: Option<string>, support: Option<string>, project: Option<string>)
    ensures Get(LabelEntry(WebUILabel, webui) + LabelEntry(SupportLabel, support) + LabelEntry(ProjectLabel, project), ProjectLabel) == project
  {
    LabelKeysDiffer();
    var front := LabelEntry(WebUILabel, webui) + LabelEntry(SupportLabel, support);
    var e3 := LabelEntry(ProjectLabel, project);
    EntriesGet(front, e3, [], ProjectLabel, project);
    assert front + e3 + [] == front + e3;
  }

  /** Each text is readable under its label, and the labels are kept in
      the order assigned. */
  lemma LabelsOfContents(webui: Option<string>, support: Option<string>, project: Option<string>)
    ensures var labels := LabelsOf(webui, support, project);
            && Get(labels, WebUILabel) == webui
            && Get(labels, SupportLabel) == support
            && Get(labels, ProjectLabel) == project
            && Keys(labels) == (if webui.Some? then [WebUILabel] else [])
                             + (if support.Some? then [SupportLabel] else [])
                             + (if project.Some? then [ProjectLabel] else [])
  {
    LabelsAppend(webui, support, project);
    EntriesWebUI(webui, support, project);
    EntriesSupport(webui, support, project);
    EntriesProject(webui, support, project);
    EntriesKeys(webui, support, project);
  }

  /** WebUI, Support and Project, kept as documentation labels when their
      text is non-empty. */
  function Labels(root: Element): (labels: seq<(string, string)>)
    ensures Get(labels, WebUILabel) == NonEmptyText(root, "WebUI")
    ensures Get(labels, SupportLabel) == NonEmptyText(root, "Support")
    ensures Get(labels, ProjectLabel) == NonEmptyText(root, "Project")
    ensures Keys(labels) == (if NonEmptyText(root, "WebUI").Some? then [WebUILabel] else [])
                          + (if NonEmptyText(root, "Support").Some? then [SupportLabel] else [])
                          + (if NonEmptyText(root, "Project").Some? then [ProjectLabel] else [])
  {
    LabelsOfContents(NonEmptyText(root, "WebUI"), NonEmptyText(root, "Support"), NonEmptyText(root, "Project"));
    LabelsOf(NonEmptyText(root, "WebUI"), NonEmptyText(root, "Support"), NonEmptyText(root, "Project"))
  }

  /** The ExtraParams text, or the empty string when the element is missing
      or has no text. */
  function ExtraParams(root: Element): (x: string)
    ensures x != "" <==> && Find(root, "ExtraParams").Some?
                         && Find(root, "ExtraParams").value.text.Some?
                         && Find(root, "ExtraParams").value.text.value != ""
    ensures x != "" ==> Find(root, "ExtraParams").value.text == Some(x)
  {
    NonEmptyText(root, "ExtraParams").GetOr("")
  }

  /** What the source reads from the descriptor besides Name and
      Repository (app.py:30-118, 175-193). */
  datatype Settings = Settings(
    privileged: bool,
    network: NetworkChoice,
    cpus: Option<string>,
    shares: Option<nat>,
    memory: Option<string>,
    cpuset: Option<string>,
    collected: Collected,
    labels: seq<(string, string)>)

  /** `int(cpu_shares)` on the captured digits: a number below 10 to the
      number of digits, which prints back as those digits unless they have
      a leading zero. */
  function SharesValue(captured: Option<string>): (n: Option<nat>)
    requires captured.Some? ==> AllDigits(captured.value)
    ensures n.Some? <==> captured.Some?
    ensures n.Some? ==> n.value < Pow10(|captured.value|)
    ensures n.Some? && captured.value != [] && (captured.value[0] != '0' || captured.value == "0")
            ==> DecimalString(n.value) == captured.value
  {
    match captured
    case None => None
    case Some(digits) =>
      assert digits != [] && (digits[0] != '0' || digits == "0") ==> DecimalString(DigitsValue(digits)) == digits by {
        if digits != [] && (digits[0] != '0' || digits == "0") { DigitsRoundTrip(digits); }
      }
      Some(DigitsValue(digits))
  }

  /** The settings read from the descriptor. The source runs the three
      searches only on a non-empty ExtraParams; on an empty one they would
      find nothing anyway. */
  function ReadSettings(root: Element): (st: Settings)
    ensures st.cpus == CpuLimit(ExtraParams(root))
    ensures st.memory == MemoryLimit(ExtraParams(root))
    ensures st.shares.Some? <==> CpuShares(ExtraParams(root)).Some?
    ensures st.shares.Some? ==> st.shares.value == DigitsValue(CpuShares(ExtraParams(root)).value)
    ensures st.network.mode.None? || st.network.networks == []
  {
    var extra := ExtraParams(root);
    Settings(
      privileged := PrivilegedFlag(root),
      network := ChooseNetwork(root),
      cpus := if extra != "" then CpuLimit(extra) else None,
      shares := SharesValue(if extra != "" then CpuShares(extra) else None),
      memory := if extra != "" then MemoryLimit(extra) else None,
      cpuset := NonEmptyText(root, "CPUset"),
      collected := Collect(FindAll(root, "Config")),
      labels := Labels(root))
  }

  /** The service dict built from what was read (app.py:120-193). */
  function Assemble(st: Settings, name: Option<string>, image: Option<string>): (s: Service)
    ensures s.image == image && s.containerName == name && s.restart == "unless-stopped"
  {
    var placement := PlaceResources(st.cpus, st.memory, st.cpuset);
    Service(
      image := image,
      containerName := name,
      restart := Restart,
      environment := st.collected.environment,
      volumes := st.collected.volumes,
      ports := st.collected.ports,
      privileged := st.privileged,
      networkMode := st.network.mode,
      networks := st.network.networks,
      cpuset := placement.cpuset,
      deploy := placement.deploy,
      cpuShares := st.shares,
      labels := st.labels)
  }

  /** The service for a descriptor whose Name and Repository texts are
      `name` and `image`. */
  function BuildService(root: Element, name: Option<string>, image: Option<string>): (s: Service)
    ensures s.image == image && s.containerName == name && s.restart == "unless-stopped"
  {
    Assemble(ReadSettings(root), name, image)
  }

  /** `parse_xml_data`: a malformed document, a missing Name or a missing
      Repository element is an error, checked in that order, and so is a
      `--cpu-shares=` value with more digits than `int()` converts;
      otherwise the name, the service and the external networks. */
  function Parse(input: XmlInput): (r: Result<Parsed, ParseError>)
    ensures input.Malformed? ==> r == Failure(InvalidXml(input.reason))
    ensures input.Wellformed? && Find(input.root, "Name").None? ==> r == Failure(NameNotFound)
    ensures input.Wellformed? && Find(input.root, "Name").Some? && Find(input.root, "Repository").None? ==>
              r == Failure(RepositoryNotFound)
    ensures input.Wellformed? && Find(input.root, "Name").Some? && Find(input.root, "Repository").Some?
            && SharesOverLimit(input.root) ==>
              r == Failure(DigitLimit(|CpuShares(ExtraParams(input.root)).value|))
    ensures r.Success? <==> && input.Wellformed? && Find(input.root, "Name").Some? && Find(input.root, "Repository").Some?
                            && !SharesOverLimit(input.root)
    ensures r.Success? ==> r.value.name == Find(input.root, "Name").value.text
    ensures r.Success? ==> r.value.service
                           == BuildService(input.root, r.value.name, Find(input.root, "Repository").value.text)
    ensures r.Success? ==> r.value.networks == r.value.service.networks
  {
    match input
    case Malformed(reason) => Failure(InvalidXml(reason))
    case Wellformed(root) =>
      match Find(root, "Name")
      case None => Failure(NameNotFound)
      case Some(nameElem) =>
        match Find(root, "Repository")
        case None => Failure(RepositoryNotFound)
        case Some(imageElem) =>
          var shares := CpuShares(ExtraParams(root));
          if shares.Some? && |shares.value| > IntMaxStrDigits then
            Failure(DigitLimit(|shares.value|))
          else
            var service := BuildService(root, nameElem.text, imageElem.text);
            Success(Parsed(nameElem.text, service, service.networks))
  }

  // Properties of the rendered service.

  /** The three fixed keys, whatever else the descriptor holds: image from
      Repository, container_name from Name, and the restart policy. */
  lemma RequiredKeys(st: Settings, name: Option<string>, image: Option<string>)
    ensures Get(Render(Assemble(st, name, image)), Str("image")) == Some(Yaml.Scalar(image))
    ensures Get(Render(Assemble(st, name, image)), Str("container_name")) == Some(Yaml.Scalar(name))
    ensures Get(Render(Assemble(st, name, image)), Str("restart")) == Some(Str("unless-stopped"))
  {
    var s := Assemble(st, name, image);
    RenderGet(s, "image");
    RenderGet(s, "container_name");
    RenderGet(s, "restart");
  }

  /** `network_mode` and `networks` never appear together, and
      `network_mode` is the lower-cased Network text when that is one of
      `host`, `bridge`, `none`. */
  lemma NetworkKeys(root: Element, name: Option<string>, image: Option<string>)
    ensures var m := Render(BuildService(root, name, image));
            !(Get(m, Str("network_mode")).Some? && Get(m, Str("networks")).Some?)
    ensures var m := Render(BuildService(root, name, image));
            var net := NonEmptyText(root, "Network");
            Get(m, Str("network_mode")) == if net.Some? && Lower(net.value) in NetworkModes
                                           then Some(Str(Lower(net.value))) else None
  {
    NetworkKeysOf(ReadSettings(root), name, image);
  }

  lemma NetworkKeysOf(st: Settings, name: Option<string>, image: Option<string>)
    ensures var m := Render(Assemble(st, name, image));
            && Get(m, Str("network_mode")) == (if st.network.mode.Some? then Some(Str(st.network.mode.value)) else None)
            && Get(m, Str("networks")) == (if st.network.mode.None? && st.network.networks != []
                                          then Some(List(Strs(st.network.networks))) else None)
  {
    var s := Assemble(st, name, image);
    RenderGet(s, "network_mode");
    RenderGet(s, "networks");
  }

  /** Any other non-empty Network text is the one external network, listed
      under `networks` and returned as the network list. */
  lemma ExternalNetwork(root: Element, name: Option<string>, image: Option<string>)
    ensures var m := Render(BuildService(root, name, image));
            var net := NonEmptyText(root, "Network");
            Get(m, Str("networks")) == if net.Some? && Lower(net.value) !in NetworkModes
                                       then Some(Yaml.List([Str(net.value)])) else None
    ensures var net := NonEmptyText(root, "Network");
            BuildService(root, name, image).networks
            == if net.Some? && Lower(net.value) !in NetworkModes then [net.value] else []
  {
    var st := ReadSettings(root);
    assert st.network == ChooseNetwork(root);
    ExternalNetworkOf(st, name, image);
  }

  lemma ExternalNetworkOf(st: Settings, name: Option<string>, image: Option<string>)
    requires st.network.mode.None? || st.network.networks == []
    requires |st.network.networks| <= 1
    ensures Get(Render(Assemble(st, name, image)), Str("networks"))
            == if st.network.networks != [] then Some(Yaml.List([Str(st.network.networks[0])])) else None
  {
    NetworkKeysOf(st, name, image);
    if st.network.networks != [] {
      assert st.network.networks == [st.network.networks[0]];
      assert Strs(st.network.networks) == [Str(st.network.networks[0])];
    }
  }

  /** cpuset, when its text is non-empty, is always a top-level key;
      `deploy.resources.limits` appears exactly when ExtraParams yields a cpu
      or memory limit and holds only those; `cpu_shares` is the integer
      value of the captured digits. */
  lemma ResourceKeys(root: Element, name: Option<string>, image: Option<string>)
    ensures var m := Render(BuildService(root, name, image));
            var cpuset := NonEmptyText(root, "CPUset");
            Get(m, Str("cpuset")) == if cpuset.Some? then Some(Str(cpuset.value)) else None
    ensures var m := Render(BuildService(root, name, image));
            var cpus := CpuLimit(ExtraParams(root));
            var memory := MemoryLimit(ExtraParams(root));
            Get(m, Str("deploy")) ==
              if cpus.Some? || memory.Some? then
                Some(Yaml.Map([(Str("resources"), Yaml.Map([(Str("limits"), LimitsValue(Limits(cpus, memory)))]))]))
              else None
    ensures var m := Render(BuildService(root, name, image));
            var shares := CpuShares(ExtraParams(root));
            Get(m, Str("cpu_shares")) == if shares.Some? then Some(Int(DigitsValue(shares.value))) else None
  {
    ResourceKeysOf(ReadSettings(root), name, image);
  }

  lemma ResourceKeysOf(st: Settings, name: Option<string>, image: Option<string>)
    ensures var m := Render(Assemble(st, name, image));
            && Get(m, Str("cpuset")) == (if st.cpuset.Some? then Some(Str(st.cpuset.value)) else None)
            && Get(m, Str("deploy")) ==
                 (if st.cpus.Some? || st.memory.Some? then
                    Some(Yaml.Map([(Str("resources"), Yaml.Map([(Str("limits"), LimitsValue(Limits(st.cpus, st.memory)))]))]))
                  else None)
            && Get(m, Str("cpu_shares")) == (if st.shares.Some? then Some(Int(st.shares.value)) else None)
  {
    var s := Assemble(st, name, image);
    RenderGet(s, "cpuset");
    RenderGet(s, "deploy");
    RenderGet(s, "cpu_shares");
  }

  /** Empty collections are left out: environment, volumes and ports appear
      only when the Config loop produced some. */
  lemma CollectionKeys(root: Element, name: Option<string>, image: Option<string>)
    ensures var m := Render(BuildService(root, name, image));
            var c := Collect(FindAll(root, "Config"));
            && (Get(m, Str("environment")).Some? <==> c.environment != [])
            && (Get(m, Str("volumes")).Some? <==> c.volumes != [])
            && (Get(m, Str("ports")).Some? <==> c.ports != [])
  {
    CollectionKeysOf(ReadSettings(root), name, image);
  }

  lemma CollectionKeysOf(st: Settings, name: Option<string>, image: Option<string>)
    ensures var m := Render(Assemble(st, name, image));
            var c := st.collected;
            && Get(m, Str("environment")) == (if c.environment != [] then Some(Map(StrPairs(c.environment))) else None)
            && Get(m, Str("volumes")) == (if c.volumes != [] then Some(List(Strs(c.volumes))) else None)
            && Get(m, Str("ports")) == (if c.ports != [] then Some(List(Strs(c.ports))) else None)
  {
    var s := Assemble(st, name, image);
    RenderGet(s, "environment");
    RenderGet(s, "volumes");
    RenderGet(s, "ports");
  }

  lemma FlagAndLabelKeysOf(st: Settings, name: Option<string>, image: Option<string>)
    ensures Get(Render(Assemble(st, name, image)), Str("privileged")) == if st.privileged then Some(Bool(true)) else None
    ensures Get(Render(Assemble(st, name, image)), Str("labels")).Some? <==> st.labels != []
  {
    var s := Assemble(st, name, image);
    RenderGet(s, "privileged");
    RenderGet(s, "labels");
  }

  /** `privileged: true` appears only for a Privileged text that lower-cases
      to `true`, and labels only when one of WebUI, Support, Project has
      text. */
  lemma FlagAndLabelKeys(root: Element, name: Option<string>, image: Option<string>)
    ensures var m := Render(BuildService(root, name, image));
            var p := NonEmptyText(root, "Privileged");
            Get(m, Str("privileged")) == if p.Some? && Lower(p.value) == "true" then Some(Bool(true)) else None
    ensures var m := Render(BuildService(root, name, image));
            Get(m, Str("labels")).Some? <==>
              NonEmptyText(root, "WebUI").Some? || NonEmptyText(root, "Support").Some? || NonEmptyText(root, "Project").Some?
  {
    var st := ReadSettings(root);
    FlagAndLabelKeysOf(st, name, image);
    assert st.labels == [] <==> Keys(st.labels) == [];
  }

  /** The volume and port lists are the Path and Port entries' strings in
      document order, and every environment name maps to the value of its
      last Variable entry. */
  lemma ConfigKeys(root: Element, name: Option<string>, image: Option<string>)
    ensures var s := BuildService(root, name, image);
            var configs := FindAll(root, "Config");
            && s.volumes == Volumes(configs)
            && s.ports == Ports(configs)
            && DistinctKeys(s.environment)
            && (forall k :: Get(s.environment, k) == LastValue(Variables(configs), k))
  {
    CollectMatchesReferences(FindAll(root, "Config"));
  }
}
