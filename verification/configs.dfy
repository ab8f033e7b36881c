/** The loop over the descriptor's `Config` elements: each one becomes an
    environment variable, a volume string, a port string, or nothing, and
    the loop gathers them in document order. */
module Configs {
  import opened Wrappers
  import opened Text
  import opened Xml
  import opened OrderedMap

  /** What one `Config` element adds to the service. */
  datatype Contribution =
    | Variable(name: string, value: string)
    | Volume(spec: string)
    | PortMapping(spec: string)
    | Ignored

  /** The three collections the loop builds: the environment as an
      insertion-ordered dict, and the volume and port lists. */
  datatype Collected = Collected(
    environment: seq<(string, string)>,
    volumes: seq<string>,
    ports: seq<string>)

  /** `config.get('Mode', '')`: empty when the attribute is missing or
      empty, and otherwise the attribute's text. */
  function ModeOf(c: Element): (m: string)
    ensures m == "" <==> "Mode" !in c.attributes || c.attributes["Mode"] == ""
    ensures m != "" ==> c.attributes["Mode"] == m
  {
    Attr(c, "Mode").GetOr("")
  }

  /** `tcp` is checked before `udp`, and anything else falls back to `tcp`. */
  function Protocol(mode: string): (p: string)
    ensures p == "tcp" || p == "udp"
    ensures p == "udp" <==> !Contains(mode, "tcp") && Contains(mode, "udp")
  {
    if Contains(mode, "tcp") then "tcp"
    else if Contains(mode, "udp") then "udp"
    else "tcp"
  }

  /** `host:container`, with `:ro` appended when the mode contains `ro`. */
  function VolumeSpec(host: string, container: string, mode: string): (v: string)
    ensures Contains(mode, "ro") ==> v == host + ":" + container + ":ro"
    ensures !Contains(mode, "ro") ==> v == host + ":" + container
  {
    if mode != "" && Contains(mode, "ro") then host + ":" + container + ":ro"
    else host + ":" + container
  }

  /** `host:container/protocol`: the protocol part is `udp` exactly when
      the mode names udp and not tcp, and `tcp` otherwise. */
  function PortSpec(host: string, container: string, mode: string): (v: string)
    ensures |v| == |host| + |container| + 5
    ensures v[..|host| + |container| + 2] == host + ":" + container + "/"
    ensures v[|v| - 3..] == if !Contains(mode, "tcp") && Contains(mode, "udp") then "udp" else "tcp"
  {
    var prefix := host + ":" + container + "/";
    var v := prefix + Protocol(mode);
    assert v[..|prefix|] == prefix;
    assert v[|prefix|..] == Protocol(mode);
    v
  }

  /** The classification of one `Config` element. */
  function ContributionOf(c: Element): (r: Contribution)
    ensures Attr(c, "Type").None? || Attr(c, "Target").None? || c.text.None? ==> r == Ignored
    ensures Attr(c, "Type").Some? && Attr(c, "Type").value !in ["Variable", "Path", "Port"] ==> r == Ignored
    ensures r.Variable? <==> Attr(c, "Type") == Some("Variable") && Attr(c, "Target").Some? && c.text.Some?
    ensures r.Variable? ==> r.name == Attr(c, "Target").value && r.value == c.text.value
    ensures r.Volume? <==> Attr(c, "Type") == Some("Path") && Attr(c, "Target").Some? && c.text.Some?
    ensures r.Volume? ==> r.spec == VolumeSpec(c.text.value, Attr(c, "Target").value, ModeOf(c))
    ensures r.PortMapping? <==> Attr(c, "Type") == Some("Port") && Attr(c, "Target").Some? && c.text.Some?
    ensures r.PortMapping? ==> r.spec == PortSpec(c.text.value, Attr(c, "Target").value, ModeOf(c))
  {
    match Attr(c, "Type")
    case None => Ignored
    case Some(kind) =>
      match Attr(c, "Target")
      case None => Ignored
      case Some(target) =>
        if kind == "Variable" then
          (match c.text
           case None => Ignored
           case Some(value) => Variable(target, value))
        else if kind == "Path" then
          (match c.text
           case None => Ignored
           case Some(host) => Volume(VolumeSpec(host, target, ModeOf(c))))
        else if kind == "Port" then
          (match c.text
           case None => Ignored
           case Some(host) => PortMapping(PortSpec(host, target, ModeOf(c))))
        else Ignored
  }

  /** One iteration of the loop body: a volume or a port is appended to its
      list, and a variable is assigned in the environment, leaving every
      other name as it was. */
  function Apply(acc: Collected, contribution: Contribution): (r: Collected)
    ensures r.volumes == acc.volumes + VolumesOf(contribution)
    ensures r.ports == acc.ports + PortsOf(contribution)
    ensures forall name :: Get(r.environment, name)
                           == if contribution.Variable? && name == contribution.name then Some(contribution.value)
                              else Get(acc.environment, name)
    ensures Keys(r.environment)
            == if contribution.Variable? && contribution.name !in Keys(acc.environment)
               then Keys(acc.environment) + [contribution.name] else Keys(acc.environment)
  {
    match contribution
    case Variable(name, value) => acc.(environment := Put(acc.environment, name, value))
    case Volume(spec) => acc.(volumes := acc.volumes + [spec])
    case PortMapping(spec) => acc.(ports := acc.ports + [spec])
    case Ignored => acc
  }

  /** The loop itself, as a left fold over the elements in document order.
      Each element adds at most one entry to one of the three collections,
      and the environment never holds a name twice. */
  function Collect(configs: seq<Element>): (r: Collected)
    ensures |r.environment| + |r.volumes| + |r.ports| <= |configs|
    ensures DistinctKeys(r.environment)
  {
    if configs == [] then Collected([], [], [])
    else
      var acc := Collect(configs[..|configs| - 1]);
      var r := Apply(acc, ContributionOf(configs[|configs| - 1]));
      assert |r.environment| == |Keys(r.environment)| && |acc.environment| == |Keys(acc.environment)|;
      r
  }

  // Reference definitions: what each collection holds, read entry by entry.

  function VolumesOf(k: Contribution): seq<string> {
    if k.Volume? then [k.spec] else []
  }

  function PortsOf(k: Contribution): seq<string> {
    if k.PortMapping? then [k.spec] else []
  }

  function VariablesOf(k: Contribution): seq<(string, string)> {
    if k.Variable? then [(k.name, k.value)] else []
  }

  function Volumes(configs: seq<Element>): seq<string> {
    if configs == [] then []
    else
      VolumesOf(ContributionOf(configs[0])) + Volumes(configs[1..])
  }

  function Ports(configs: seq<Element>): seq<string> {
    if configs == [] then []
    else
      PortsOf(ContributionOf(configs[0])) + Ports(configs[1..])
  }

  function Variables(configs: seq<Element>): seq<(string, string)> {
    if configs == [] then []
    else
      VariablesOf(ContributionOf(configs[0])) + Variables(configs[1..])
  }

  /** The value of the last assignment to `k`. */
  function LastValue(assignments: seq<(string, string)>, k: string): Option<string> {
    if assignments == [] then None
    else
      match LastValue(assignments[1..], k)
      case Some(v) => Some(v)
      case None => if assignments[0].0 == k then Some(assignments[0].1) else None
  }

  /** The distinct elements of `s` in order of first occurrence. */
  function Dedup(s: seq<string>): seq<string> {
    if s == [] then []
    else
      var d := Dedup(s[..|s| - 1]);
      if s[|s| - 1] in d then d else d + [s[|s| - 1]]
  }

  lemma {:induction false} VolumesAppend(configs: seq<Element>, c: Element)
    ensures Volumes(configs + [c]) == Volumes(configs) + VolumesOf(ContributionOf(c))
  {
    if configs == [] {
      assert configs + [c] == [c];
      assert [c][1..] == [];
    } else {
      assert (configs + [c])[0] == configs[0];
      assert (configs + [c])[1..] == configs[1..] + [c];
      VolumesAppend(configs[1..], c);
    }
  }

  lemma {:induction false} PortsAppend(configs: seq<Element>, c: Element)
    ensures Ports(configs + [c]) == Ports(configs) + PortsOf(ContributionOf(c))
  {
    if configs == [] {
      assert configs + [c] == [c];
      assert [c][1..] == [];
    } else {
      assert (configs + [c])[0] == configs[0];
      assert (configs + [c])[1..] == configs[1..] + [c];
      PortsAppend(configs[1..], c);
    }
  }

  lemma {:induction false} VariablesAppend(configs: seq<Element>, c: Element)
    ensures Variables(configs + [c]) == Variables(configs) + VariablesOf(ContributionOf(c))
  {
    if configs == [] {
      assert configs + [c] == [c];
      assert [c][1..] == [];
    } else {
      assert (configs + [c])[0] == configs[0];
      assert (configs + [c])[1..] == configs[1..] + [c];
      VariablesAppend(configs[1..], c);
    }
  }

  lemma {:induction false} LastValueAppend(a: seq<(string, string)>, b: seq<(string, string)>, k: string)
    ensures LastValue(a + b, k) == if LastValue(b, k).Some? then LastValue(b, k) else LastValue(a, k)
  {
    if a == [] {
      assert a + b == b;
    } else {
      assert (a + b)[0] == a[0];
      assert (a + b)[1..] == a[1..] + b;
      LastValueAppend(a[1..], b, k);
    }
  }

  /** Volumes and ports are the contributions of their kind in document
      order. */
  lemma {:induction false} CollectLists(configs: seq<Element>)
    ensures Collect(configs).volumes == Volumes(configs)
    ensures Collect(configs).ports == Ports(configs)
  {
    if configs != [] {
      var prefix := configs[..|configs| - 1];
      var c := configs[|configs| - 1];
      assert configs == prefix + [c];
      CollectLists(prefix);
      VolumesAppend(prefix, c);
      PortsAppend(prefix, c);
    }
  }

  /** One more assignment keeps the environment's keys the deduplicated
      assignment names. */
  lemma AssignKeys(env: seq<(string, string)>, assignments: seq<(string, string)>, name: string, value: string)
    requires Keys(env) == Dedup(Keys(assignments)) && DistinctKeys(env)
    ensures Keys(Put(env, name, value)) == Dedup(Keys(assignments + [(name, value)]))
    ensures DistinctKeys(Put(env, name, value))
  {
    var ks := Keys(assignments);
    assert Keys(assignments + [(name, value)]) == ks + [name];
    assert (ks + [name])[..|ks|] == ks;
  }

  lemma {:induction false} CollectEnvironmentKeys(configs: seq<Element>)
    ensures Keys(Collect(configs).environment) == Dedup(Keys(Variables(configs)))
    ensures DistinctKeys(Collect(configs).environment)
  {
    if configs != [] {
      var prefix := configs[..|configs| - 1];
      var c := configs[|configs| - 1];
      assert configs == prefix + [c];
      CollectEnvironmentKeys(prefix);
      VariablesAppend(prefix, c);
      var contribution := ContributionOf(c);
      if contribution.Variable? {
        AssignKeys(Collect(prefix).environment, Variables(prefix), contribution.name, contribution.value);
      } else {
        assert Variables(configs) == Variables(prefix);
      }
    }
  }

  /** Every name maps to the value of its last assignment. */
  lemma {:induction false} CollectEnvironmentValues(configs: seq<Element>)
    ensures forall k :: Get(Collect(configs).environment, k) == LastValue(Variables(configs), k)
  {
    if configs != [] {
      var prefix := configs[..|configs| - 1];
      var c := configs[|configs| - 1];
      assert configs == prefix + [c];
      CollectEnvironmentValues(prefix);
      VariablesAppend(prefix, c);
      var vs := Variables(prefix);
      var last := VariablesOf(ContributionOf(c));
      forall k ensures Get(Collect(configs).environment, k) == LastValue(Variables(configs), k) {
        LastValueAppend(vs, last, k);
      }
    }
  }

  /** The loop agrees with the entry-by-entry reading: volumes and ports are
      the contributions of their kind in document order, the environment
      holds each variable name once, in order of first appearance, with the
      value of its last assignment. */
  lemma CollectMatchesReferences(configs: seq<Element>)
    ensures Collect(configs).volumes == Volumes(configs)
    ensures Collect(configs).ports == Ports(configs)
    ensures Keys(Collect(configs).environment) == Dedup(Keys(Variables(configs)))
    ensures DistinctKeys(Collect(configs).environment)
    ensures forall k :: Get(Collect(configs).environment, k) == LastValue(Variables(configs), k)
  {
    CollectLists(configs);
    CollectEnvironmentKeys(configs);
    CollectEnvironmentValues(configs);
  }
}
