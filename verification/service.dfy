/** The compose service the converter builds, and its rendering as the
    ordered mapping `yaml.dump` receives. The source fills a dict by a fixed
    sequence of conditional assignments (app.py:121-193); here each key's
    presence and value is `Field`, and `Render` emits the present keys in
    that fixed order. */
module ServiceRecord {
  import opened Wrappers
  import opened Yaml
  import opened OrderedMap

  /** `deploy.resources.limits`: each limit kept as the captured string. */
  datatype Limits = Limits(cpus: Option<string>, memory: Option<string>)

  datatype Service = Service(
    image: Option<string>,
    containerName: Option<string>,
    restart: string,
    environment: seq<(string, string)>,
    volumes: seq<string>,
    ports: seq<string>,
    privileged: bool,
    networkMode: Option<string>,
    networks: seq<string>,
    cpuset: Option<string>,
    deploy: Option<Limits>,
    cpuShares: Option<int>,
    labels: seq<(string, string)>)

  /** The order in which the source inserts the service's keys. */
  const KeyOrder: seq<string> := [
    "image", "container_name", "restart", "environment", "volumes", "ports",
    "privileged", "network_mode", "networks", "cpuset", "deploy",
    "cpu_shares", "labels"]

  function LimitsValue(l: Limits): Value {
    Map((if l.cpus.Some? then [(Str("cpus"), Str(l.cpus.value))] else [])
      + (if l.memory.Some? then [(Str("memory"), Str(l.memory.value))] else []))
  }

  /** The value the service dict holds under `key`, or `None` when the
      source leaves the key out: empty collections, a false privileged flag,
      networks when a network mode is set, and absent options. */
  function Field(s: Service, key: string): (r: Option<Value>)
    ensures r.Some? ==> key in KeyOrder
    ensures key in ["image", "container_name", "restart"] ==> r.Some?
    ensures r.Some? && r.value.Map? ==> r.value.entries != []
    ensures r.Some? && r.value.List? ==> r.value.items != []
    ensures r.Some? && r.value.Bool? ==> r.value.b
    ensures key == "networks" && r.Some? ==> s.networkMode.None?
  {
    if key == "image" then Some(Scalar(s.image))
    else if key == "container_name" then Some(Scalar(s.containerName))
    else if key == "restart" then Some(Str(s.restart))
    else if key == "environment" then
      if s.environment != [] then Some(Map(StrPairs(s.environment))) else None
    else if key == "volumes" then
      if s.volumes != [] then Some(List(Strs(s.volumes))) else None
    else if key == "ports" then
      if s.ports != [] then Some(List(Strs(s.ports))) else None
    else if key == "privileged" then
      if s.privileged then Some(Bool(true)) else None
    else if key == "network_mode" then
      if s.networkMode.Some? then Some(Str(s.networkMode.value)) else None
    else if key == "networks" then
      if s.networkMode.None? && s.networks != [] then Some(List(Strs(s.networks))) else None
    else if key == "cpuset" then
      if s.cpuset.Some? then Some(Str(s.cpuset.value)) else None
    else if key == "deploy" then
      if s.deploy.Some? then
        Some(Map([(Str("resources"), Map([(Str("limits"), LimitsValue(s.deploy.value))]))]))
      else None
    else if key == "cpu_shares" then
      if s.cpuShares.Some? then Some(Int(s.cpuShares.value)) else None
    else if key == "labels" then
      if s.labels != [] then Some(Map(StrPairs(s.labels))) else None
    else None
  }

  function Flatten(o: Option<Option<Value>>): Option<Value> {
    match o
    case None => None
    case Some(inner) => inner
  }

  /** Keeps the entries whose value is present, in order. */
  function Present(fields: seq<(string, Option<Value>)>): seq<(Value, Value)> {
    if fields == [] then []
    else
      (if fields[0].1.Some? then [(Str(fields[0].0), fields[0].1.value)] else [])
      + Present(fields[1..])
  }

  /** Reading a key back from the kept entries gives its value if present. */
  lemma {:induction false} PresentGet(fields: seq<(string, Option<Value>)>, k: string)
    requires Distinct(Keys(fields))
    ensures Get(Present(fields), Str(k)) == Flatten(Get(fields, k))
  {
    if fields != [] {
      var ks := Keys(fields);
      assert Keys(fields[1..]) == ks[1..];
      PresentGet(fields[1..], k);
      var rest := Present(fields[1..]);
      var m := Present(fields);
      if fields[0].1.Some? {
        assert m[1..] == rest;
      } else {
        assert m == rest;
      }
      if fields[0].0 != k {
        assert Get(fields, k) == Get(fields[1..], k);
        assert Get(m, Str(k)) == Get(rest, Str(k));
      } else {
        assert ks[0] == k;
        assert k !in ks[1..] by {
          forall j | 0 <= j < |ks[1..]| ensures ks[1..][j] != k {
            assert ks[1..][j] == ks[j + 1];
          }
        }
      }
    }
  }

  /** `a` is `b` with some elements left out, order kept. */
  predicate IsSubsequence<T(==)>(a: seq<T>, b: seq<T>) {
    || a == []
    || (&& b != []
        && ((a[0] == b[0] && IsSubsequence(a[1..], b[1..])) || IsSubsequence(a, b[1..])))
  }

  /** The kept entries carry the field names in the field list's order. */
  lemma {:induction false} PresentKeysInOrder(fields: seq<(string, Option<Value>)>)
    ensures IsSubsequence(Keys(Present(fields)), Strs(Keys(fields)))
  {
    if fields != [] {
      var key := fields[0].0;
      var b := Strs(Keys(fields));
      assert b[0] == Str(key);
      assert b[1..] == Strs(Keys(fields[1..]));
      PresentKeysInOrder(fields[1..]);
      var rest := Present(fields[1..]);
      var a := Keys(Present(fields));
      if fields[0].1.Some? {
        assert a == [Str(key)] + Keys(rest);
        assert a[1..] == Keys(rest);
      } else {
        assert a == Keys(rest);
      }
    }
  }

  /** The service's fields in the source's insertion order. */
  function Fields(s: Service): (fields: seq<(string, Option<Value>)>)
    ensures Keys(fields) == KeyOrder
  {
    seq(|KeyOrder|, i requires 0 <= i < |KeyOrder| => (KeyOrder[i], Field(s, KeyOrder[i])))
  }

  /** The service as the ordered mapping handed to the dumper: the keys
      that are present appear in the source's insertion order (`RenderGet`
      says what each reads back as). */
  function Render(s: Service): (m: seq<(Value, Value)>)
    ensures IsSubsequence(Keys(m), Strs(KeyOrder))
  {
    PresentKeysInOrder(Fields(s));
    Present(Fields(s))
  }

  /** Every key of the rendered service reads back as `Field` says. */
  lemma RenderGet(s: Service, k: string)
    ensures Get(Render(s), Str(k)) == Field(s, k)
  {
    KeyOrderDistinct();
    PresentGet(Fields(s), k);
    FieldsGet(s, k);
  }

  /** No key is assigned under two names. */
  lemma KeyOrderDistinct()
    ensures Distinct(KeyOrder)
  {
    forall i, j | 0 <= i < j < |KeyOrder| ensures KeyOrder[i] != KeyOrder[j] {
      assert KeyOrder[i][0] != KeyOrder[j][0] || KeyOrder[i][1] != KeyOrder[j][1] || |KeyOrder[i]| != |KeyOrder[j]|;
    }
  }

  /** Looking a key up in the field list gives its `Field`, wrapped. */
  lemma FieldsGet(s: Service, k: string)
    ensures Flatten(Get(Fields(s), k)) == Field(s, k)
  {
    var fields := Fields(s);
    var o := Get(fields, k);
    if o.Some? {
      var i :| 0 <= i < |fields| && fields[i] == (k, o.value);
      assert fields[i].1 == Field(s, KeyOrder[i]);
    } else {
      assert k !in KeyOrder;
    }
  }
}
