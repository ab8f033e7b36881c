# unraid-2-compose in Dafny

This project models the conversion core of unraid-2-compose. The converter turns an unRAID Docker-template XML descriptor into a docker-compose document. The model covers three pieces:

- `parse_xml_data` takes the descriptor's element tree and produces the container name, the service dict and the list of external networks.
- `convert_xml_to_compose` wraps that service in the compose document, or returns the error message instead.
- The string representer it registers decides when a string scalar is double-quoted.

Modules follow the program's structure:

- `Xml` covers the element tree and `find` / `findall` / `get`.
- `Text` covers substring tests, ASCII lower-casing and `int()` on digits.
- `OrderedMap` covers Python's insertion-ordered `dict`.
- `Flags` covers the three regular-expression searches on ExtraParams.
- `Configs` covers the loop over `Config` elements.
- `ServiceRecord` covers the service dict and its key order.
- `Template` covers `parse_xml_data`.
- `Yaml` covers the document value and the quoting rule.
- `Compose` covers `convert_xml_to_compose`.

The regexes are written as left-to-right scanners. Their contracts state `re.search`'s meaning: the leftmost match with the greedy capture. Uniqueness lemmas show that these contracts fix the result.

The Config loop is a left fold. It is related to independent entry-by-entry reference definitions: `Volumes`, `Ports`, `Variables` and `LastValue`.

The rendered service is an ordered mapping. Its keys follow the source's insertion order, and `RenderGet` says what each key reads back as.

Three behaviours of app.py that are easy to misread:

- **Port protocol.** A Mode containing both `tcp` and `udp` gives `tcp`, because the code checks for `tcp` first (app.py:111-114).
- **Memory flag case.** `re.IGNORECASE` applies to the whole `--memory=([0-9]+[kmg]?)` pattern, so the flag itself may be in any case, not only the unit suffix (app.py:71).
- **Empty Name or Repository.** Only a *missing* Name or Repository element is an error (app.py:20-28). An element that is present but empty gives a `None` name or image, which is dumped as `null`.
- **Long cpu-shares values.** `int(cpu_shares)` (app.py:173) raises `ValueError` for more than 4300 digits under CPython's default limit. `convert_xml_to_compose` catches it (app.py:212-213) and returns its message, so such a descriptor converts to an error even with Name and Repository present.

## Model

| member | source | states |
|---|---|---|
| Template.Parse | app.py:13-195 | A malformed document, a missing Name and a missing Repository are errors, checked in that order. With both elements present, a captured cpu-shares value of more than 4300 digits is an error carrying its digit count. Success happens exactly when none of these apply. The name is the Name text, the service is built from the Repository text, and the returned networks are the service's networks. |
| Template.PrivilegedFlag | app.py:30-32 | The flag is set exactly when a Privileged element exists and its text is four characters that match `true` ignoring case. |
| Template.ExtraParams | app.py:49-50 | The flag text is the ExtraParams element's text when that is non-empty, and empty otherwise (including when the element is missing). |
| Template.SharesValue | app.py:171-173 | There is a value exactly when digits were captured. It is below 10 to the number of digits, and for digits without a leading zero it prints back as those digits. |
| Template.ReadSettings | app.py:30-73 | The cpu and memory limits are the two flag searches on the ExtraParams text. Shares are present exactly when the cpu-shares search captured digits, with their integer value. At most one of network mode and networks is set. |
| Template.ChooseNetwork | app.py:34-43 | At most one of network mode and networks is set. The mode is one of host/bridge/none and is the lower-cased Network text, set exactly when that text lower-cases into that list. Otherwise a non-empty Network text becomes the single external network, kept as written. |
| Template.PlaceResources | app.py:144-169 | cpuset always stays top-level. The deploy limits exist exactly when a cpu or memory limit was found, and they hold exactly those two values. |
| Template.Labels | app.py:175-193 | Each of WebUI, Support and Project with non-empty text is readable under `unraid.webui`, `unraid.support` or `unraid.project`, and the label keys appear in that order. |
| Template.LabelsOfContents | app.py:180-193 | The three conditional label assignments leave each text under its key, and the keys are in assignment order. |
| Template.LabelsAppend | app.py:180-193 | Because the three label names are distinct, each assignment appends a new entry. |
| Template.AddNewLabel | app.py:180-181 | Assigning a label key that is not yet present appends it at the end of the dict. |
| Template.RequiredKeys | app.py:121-125 | Whatever else the descriptor holds, the rendered service has `image` (the Repository text), `container_name` (the Name text) and `restart: unless-stopped`. |
| Template.NetworkKeys | app.py:139-142 | `network_mode` and `networks` never appear together. `network_mode` is the lower-cased Network text when that is host, bridge or none, and is absent otherwise. |
| Template.NetworkKeysOf | app.py:139-142 | For any settings, `network_mode` reads as the chosen mode. `networks` reads as the chosen list only when no mode is set and the list is non-empty, and is absent otherwise. |
| Template.ExternalNetwork | app.py:39-43 | Any other non-empty Network text is listed alone under `networks` and is the returned network list. Otherwise both are empty. |
| Template.ExternalNetworkOf | app.py:139-142 | For settings with at most one network and never both a mode and networks, `networks` reads as that one network, and is absent when there is none. |
| Template.ResourceKeys | app.py:48-73 | `cpuset` is its non-empty text at top level. `deploy.resources.limits` appears exactly when ExtraParams yields a cpu or memory limit, and holds exactly those. `cpu_shares` is the integer value of the captured digits. |
| Template.ResourceKeysOf | app.py:144-173 | For any settings, `cpuset` is top-level when set. `deploy.resources.limits` appears exactly when a cpu or memory limit is set, holding just those. `cpu_shares` is the integer when set. |
| Template.CollectionKeys | app.py:127-134 | `environment`, `volumes` and `ports` appear exactly when the Config loop produced entries of that kind. |
| Template.CollectionKeysOf | app.py:127-134 | For any settings, `environment`, `volumes` and `ports` read as the collected dict and lists, and are absent exactly when those are empty. |
| Template.FlagAndLabelKeys | app.py:30-32 | `privileged: true` appears exactly for a Privileged text that lower-cases to `true`. `labels` appears exactly when WebUI, Support or Project has text. |
| Template.FlagAndLabelKeysOf | app.py:136-137 | For any settings, `privileged: true` appears exactly when the flag is set, and `labels` exactly when some label was assigned. |
| Template.ConfigKeys | app.py:75-118 | The service's volumes and ports are the Path and Port entries' strings in document order. The environment has distinct keys, and each name maps to its last Variable value. |
| Flags.Capture | app.py:61-68 | There is no result iff the pattern matches nowhere. Otherwise the result is the greedy class run after the leftmost match. |
| Flags.CpuLimit | app.py:61-63 | `--cpus=([0-9.]+)` captures the greedy digit-or-dot run after the leftmost flag that is followed by one. It yields nothing iff no position matches. |
| Flags.CpuShares | app.py:66-68 | `--cpu-shares=([0-9]+)` captures the non-empty greedy digit run after the leftmost matching flag. It yields nothing iff no position matches. |
| Flags.MemoryLimit | app.py:71-73 | `--memory=([0-9]+[kmg]?)` is matched ignoring case at the leftmost matching flag. The capture is the greedy digit run plus the following unit letter if there is one, kept as written. It yields nothing iff no position matches. |
| Flags.LeftmostUnique | app.py:61 | Two leftmost match positions are the same position. |
| Flags.MaximalRunUnique | app.py:61-68 | The greedy capture at a position is unique. |
| Flags.MemoryCapturedUnique | app.py:71-73 | The memory capture (digits with an optional unit) at a position is unique. |
| Flags.CpusExample | app.py:59-63 | `--cpus=1.5 --memory=512m` gives the cpu limit `1.5`. |
| Flags.MemoryExample | app.py:70-73 | `--cpus=1.5 --memory=512m` gives the memory limit `512m`. |
| Flags.SharesExample | app.py:65-68 | `--cpus=1.5 --memory=512m` gives no cpu shares. |
| Configs.Protocol | app.py:108-116 | The protocol is `tcp` or `udp`, and it is `udp` iff the mode contains `udp` but not `tcp`. |
| Configs.VolumeSpec | app.py:94-103 | The volume is `host:container`, with `:ro` appended iff the mode contains `ro`. |
| Configs.PortSpec | app.py:104-118 | The port is `host:container/` followed by a three-letter protocol. The protocol is `udp` iff the mode names udp and not tcp, and `tcp` otherwise, including for an empty mode. |
| Configs.ModeOf | app.py:109 | `config.get('Mode', '')` is empty exactly when the attribute is missing or empty, and otherwise is the attribute's value. |
| Configs.ContributionOf | app.py:80-118 | An element without Type, without Target or without text, or with any other Type, contributes nothing. Variable gives Target mapped to the text. Path gives a volume string and Port gives a port string. |
| Configs.Apply | app.py:89-118 | One Config entry appends its volume or port string to the matching list. A Variable makes its name read its value, leaving every other name unchanged, and appends the name to the keys only when it is new. |
| Configs.Collect | app.py:76-118 | The loop yields at most one environment entry, volume or port per Config element, and the environment's keys are distinct. |
| Configs.CollectLists | app.py:94-118 | The loop's volume and port lists are the Path and Port contributions in document order. |
| Configs.AssignKeys | app.py:93 | One more environment assignment keeps the keys equal to the assignment names deduplicated in order of first appearance, and keeps them distinct. |
| Configs.CollectEnvironmentKeys | app.py:89-93 | The environment holds each Variable name once, in order of first appearance. |
| Configs.CollectEnvironmentValues | app.py:89-93 | Every environment name maps to the value of its last Variable entry. |
| Configs.CollectMatchesReferences | app.py:75-118 | The loop agrees with the entry-by-entry reading: the lists in document order, distinct environment keys in first-appearance order, and the last value winning. |
| OrderedMap.Get | app.py:155 | `d.get(k)` finds a value iff `k` is a key, and the value is stored under `k`. |
| OrderedMap.Put | app.py:93 | `d[k] = v` makes `k` read `v` and leaves every other key unchanged. An existing key keeps its position and a new key goes last. Keys stay distinct. |
| OrderedMap.PutNew | app.py:181 | Assigning a key not yet present appends the pair. |
| OrderedMap.GetAppend | app.py:180-193 | Lookup in a concatenation takes the first part's entry when it has the key. |
| Xml.Find | app.py:20 | `find` returns the first direct child with the tag, and returns nothing iff no child has it. |
| Xml.FindAll | app.py:80 | `findall` returns exactly the direct children with the tag. |
| Xml.WithTagAppend | app.py:80 | Selecting by tag commutes with concatenation, so document order is kept. |
| Xml.Attr | app.py:81-87 | `config.get(name)` finds a value iff the attribute is present, and then gives its value. |
| Xml.NonEmptyText | app.py:176-177 | `elem is not None and elem.text` holds iff the element exists with non-empty text, and then gives that text. |
| Text.Contains | app.py:100 | Python's `sub in text` holds iff `sub` occurs at some index. |
| Text.ContainsChar | app.py:9 | For a one-character needle, the substring test is membership. |
| Text.Lower | app.py:40-41 | Lower-casing keeps the length and lowers each character. |
| Text.DigitsValue | app.py:173 | `int()` of `n` digits is below 10^n. |
| Text.DigitsValueAppend | app.py:173 | The value of `a + b` is `a` shifted left by `len(b)` decimal places plus `b`. |
| Text.LeadingZerosIgnored | app.py:173 | Leading zeros do not change `int()`. |
| Text.DecimalString | app.py:173 | `str()` of a number is a non-empty digit string without a leading zero, except for `0` itself. |
| Text.DecimalRoundTrip | app.py:173 | `int(str(n))` is `n`. |
| Text.DigitsRoundTrip | app.py:173 | `str(int(s))` is `s` for a digit string without a leading zero. |
| Yaml.StyleOf | app.py:8-11 | A string is double-quoted iff it contains a newline, `:`, `{`, `}`, `[` or `]`. |
| ServiceRecord.Field | app.py:121-193 | Only the source's keys can be present, and image, container_name and restart always are. A present mapping or list is non-empty, a present flag is `true`, and `networks` is present only without a network mode. |
| ServiceRecord.Render | app.py:121-193 | The rendered keys are a subsequence of the insertion order. |
| ServiceRecord.RenderGet | app.py:127-193 | Each key reads back as its value, or is absent for empty collections, a false flag, `networks` beside a mode, and absent options. |
| Compose.ExternalNetworks | app.py:216-219 | The `networks` section lists each network, each marked `external: true`. |
| Compose.Document | app.py:197-219 | The document keys are `version` (`3.8`), `services` and, only when there are networks, `networks`. `services` holds the one service keyed by the name. |
| Compose.Convert | app.py:197-227 | The conversion yields a document exactly when the XML is well-formed, has Name and Repository elements, and has no cpu-shares value of more than 4300 digits. Its `services` entry then holds one service, keyed by the Name text and built from the descriptor. |
| Compose.ConvertMalformed | app.py:14-18 | Unparseable XML returns `Invalid XML data: ` followed by the parser's message. |
| Compose.ConvertNoName | app.py:20-22 | A descriptor without a Name element returns `Container name not found in XML`. |
| Compose.ConvertNoRepository | app.py:25-27 | A descriptor with a Name but no Repository element returns `Repository (image) not found in XML`. |
| Compose.ConvertDigitLimit | app.py:171-173 | With both elements present, a cpu-shares value of more than 4300 digits returns the interpreter's digit-limit message, which carries that digit count. |
| Compose.ConvertServiceKeyedByName | app.py:205-207 | The conversion errs iff Name or Repository is missing or the cpu-shares value is over the digit limit. Otherwise the only service is keyed by the Name text and carries the Repository text as its image. |
| Compose.ParsedNetworks | app.py:37-43 | When parsing succeeds, the returned network list is the Network text when it is not a built-in mode, and empty otherwise. |
| Compose.ConvertNetworksSection | app.py:209-219 | When the conversion succeeds, the top-level `networks` section exists iff the Network text names an external network, and then marks that one network external. |
| Compose.VolumesAndPortsDoubleQuoted | app.py:8-11 | Every volume and port string is emitted double-quoted, since each contains a colon. |
| Compose.PlexPortSpec | app.py:104-118 | A Port Config with Target 32400, Mode tcp and text 32400 contributes `32400:32400/tcp`. |
| Compose.PlexDocument | app.py:197-207 | The plex descriptor converts to a document whose single service is keyed `plex`. |
| Compose.PlexPorts | app.py:133-134 | That service's ports are `["32400:32400/tcp"]`. |
| Compose.PlexNoVolumesOrEnvironment | app.py:127-131 | That service has no `environment` and no `volumes` key. |
| Compose.PlexServiceCollections | app.py:127-134 | Any service whose Config loop produced only that port has it as its `ports` list and no `environment` or `volumes` key. |

## Left out

- The Flask routes and the development server (app.py:229-246) are left out. They are request and response glue, including the empty-input check of the `/convert` route.
- XML text parsing (`ET.fromstring`) is left out. A descriptor arrives as a well-formed element tree, or as a failure carrying ElementTree's message.
- The byte-level YAML serialisation (`yaml.dump`) and the process-wide `add_representer` registration are left out. The model stops at the ordered document value and the quoting style for each string.
- Set iteration order in the `networks` section is not modelled. `parse_xml_data` returns at most one network, so the set holds at most one element.
- Text.Lower: lower-cases ASCII letters only. The words it is compared with are ASCII (`host`, `bridge`, `none`, `true`), and no other character lower-cases to a single one of their letters, so the comparison results are Python's.
- Flags.MemoryLimit: uses ASCII case folding for the `--memory=` literal. Its letters have no non-ASCII case partner. The `[kmg]` unit class does include KELVIN SIGN, as Python's case folding does.
- Xml.FindAll: its contract states membership only. Document order is stated by `Xml.WithTagAppend` together with the definition.
- ServiceRecord.Render: its contract states key order as a subsequence of the insertion order. Contents are stated per key by `ServiceRecord.RenderGet`.
- Python's exception type and traceback are not modelled. Only the message text of each error (`ParseError.Message`) is kept, which is what the converter returns.
- Template.IntMaxStrDigits: the digit cap is CPython's default of 4300. Interpreters without a cap, and caps changed through `sys.set_int_max_str_digits` or `PYTHONINTMAXSTRDIGITS`, are not modelled. The message follows the CPython 3.12 wording.
- Configs.Collect: its own contract bounds the collection sizes and keeps the environment keys distinct. Its contents are stated by `Configs.CollectMatchesReferences` against the entry-by-entry definitions.
