# Rigbeat sensor logic in Dafny

Rigbeat exports Windows hardware readings (CPU/GPU temperatures, loads,
clocks, fan speeds) from LibreHardwareMonitor to Prometheus. This project
models the decision logic of four of its files:

- the two diagnostic scripts `sensor_discovery.py` and `debug_http_api.py`,
  which walk the `data.json` sensor tree LibreHardwareMonitor serves: sensor
  counts, capped depth-first listings, value cleaning, and the CPU/GPU and
  fan investigations;
- `hardware_exporter.py`'s `HardwareMonitor.update_metrics` (the first-match
  routing of WMI sensors to gauges, with label derivation) and
  `get_system_info`;
- `test_fans.py`'s fan categorisation, labelling, bucketing and exit status.

Modules, one per file:

| file | module | models |
|---|---|---|
| strings.dfy | `Optional`, `Strings` | the Python `str` operations used (`lower`, `strip`, `in`, `replace`, a character filter) |
| sensor_tree.dfy | `SensorTree` | the JSON node tree, the two "is a sensor" tests, `count_sensors`, `count_direct_sensors` |
| tree_walk.dfy | `TreeWalk` | `find_and_show_sensors` and `find_sensor_locations` |
| value_parsing.dfy | `ValueParsing` | value cleaning and the decimal part of `float()` |
| investigation.dfy | `Investigation` | `investigate_cpu_gpu_sensors`, `investigate_fan_sensors` |
| wmi.dfy | `Wmi` | the WMI `Sensor` and `Hardware` rows |
| fans.dfy | `FanDetection` | `test_fan_detection` |
| exporter.dfy | `Exporter` | `update_metrics`, `get_system_info` |

Both diagnostic scripts define the same walkers and differ only in what
counts as a sensor. The walkers are written once, parameterised by
`Tool = SensorDiscovery | DebugHttpApi`. `count_direct_sensors` is defined
twice, identically, in each script; it is modelled once.

A JSON object is `Dict(text, hasType, rawValue, value, children)`. Each
optional field is an `Option`, and `Children` is either absent, a list, or
present but not a list. Any other JSON value is `NotDict`. A field value is
`Null`, a string, or `Other`, which stands for any other JSON value and is
carried as its `str()` rendering and its truthiness. What the scripts print
is returned as data: the sensors listed, the locations with their paths, and
the inspection reports. Gauges are a map from (metric, label values) to the
last value set.

## Model

| member | source | states |
|---|---|---|
| SensorTree.Count | sensor_discovery.py:288-305 | `count_sensors` equals the length of the depth-first, parent-first list of sensors. A node is counted only when it is an object with `Type` and a `Value` that is not None, not blank, and not "n/a"/"null" in any case. |
| SensorTree.CountAll | debug_http_api.py:235-249 | The sum over a `Children` list equals the number of sensors in its depth-first enumeration. Here a sensor is any object with `Type` and `RawValue` or `Value`. |
| SensorTree.Sensors | sensor_discovery.py:292-303 | Every node in the reference enumeration passes the script's sensor test. |
| SensorTree.ChildCountBounded | sensor_discovery.py:300-303 | A node's `count_sensors` is never below the count of any one of its children. |
| SensorTree.CountAllBoundsMember | debug_http_api.py:245-247 | The total over a child list is at least the count of each child in it. |
| SensorTree.BlankValueNotSensor | sensor_discovery.py:297 | A node whose value text is only white space strips to "" and is never a sensor_discovery.py sensor. |
| SensorTree.DiscoveryCountAtMostDebugCount | debug_http_api.py:241-242 | On every tree, debug_http_api.py's `count_sensors` counts at least as many sensors as sensor_discovery.py's. Its test does not look at the value. |
| SensorTree.CountDirectSensors | debug_http_api.py:111-146 | `count_direct_sensors` counts exactly the sensors among the node and its immediate children. The count is at most 1 + the number of children, and 0 for a non-object. |
| SensorTree.DirectCountAtMostDebugCount | debug_http_api.py:111-127 | `count_direct_sensors(node) <= count_sensors(node)`: it applies the same test, restricted to one level. |
| SensorTree.DirectCountCanExceedDiscoveryCount | sensor_discovery.py:162-178 | In sensor_discovery.py the one-level count can exceed `count_sensors`: a node with `Type` and the value "N/A" is counted by one and not by the other. |
| TreeWalk.FindAndShowCounts | sensor_discovery.py:200-241 | Starting below the cap, `find_and_show_sensors` returns `min(max_sensors, sensors_found + count_sensors(node))` and lists exactly that many first sensors of the depth-first order. At or above the cap it returns `sensors_found` and lists nothing. |
| TreeWalk.ShowChildrenCounts | debug_http_api.py:182-186 | The child loop with its `break` at the cap accumulates `min(cap, start + total count)`. It lists a prefix of the children's sensors. |
| TreeWalk.FindAndShowBounded | debug_http_api.py:149-188 | From a start at or below the cap, the returned counter lies between the start and `max_sensors`. |
| TreeWalk.CurrentPath | sensor_discovery.py:250 | The path only grows: the result always starts with the incoming path, and it is longer exactly when the node has a non-empty Text. |
| TreeWalk.Locations | debug_http_api.py:196-230 | The reference listing of `find_sensor_locations` holds only sensors, and every path it reports extends the starting path. |
| TreeWalk.FindLocationsCounts | sensor_discovery.py:244-285 | Starting below the cap, `find_sensor_locations` returns `min(max_examples, examples_found + #topmost sensors)` and reports exactly the first topmost sensors with their paths. At or above the cap it returns the counter unchanged. |
| TreeWalk.SensorNodeNotDescended | debug_http_api.py:200-223 | A sensor node returns `examples_found + 1` and reports only itself, at its own path, whatever lies below it. |
| TreeWalk.FindLocationsBounded | debug_http_api.py:191-232 | From a start at or below `max_examples`, the result never exceeds `max_examples`. |
| TreeWalk.LocationsAtMostCount | debug_http_api.py:191-249 | `find_sensor_locations` never finds more sensors than `count_sensors` counts. |
| ValueParsing.CleaningVariantsAgree | sensor_discovery.py:224-226 | Both cleaning chains turn ',' into '.' before removing units, and they give the same result on every input, including `find_sensor_locations`' extra GB/MB removal. That result is a one-pass filter keeping only digits, '.', '-' and '\\'. |
| ValueParsing.CleanIsCharwise | debug_http_api.py:214-216 | For any unit-token list none of whose characters is kept, the cleaning chain equals the one-pass comma-to-point filter. |
| ValueParsing.CleanCharwise | debug_http_api.py:173 | Everything the cleaning keeps is a digit, '.', '-' or '\\'. |
| ValueParsing.ShowParseIsCharwise | sensor_discovery.py:221-231 | `find_and_show_sensors` parses only a truthy value that is not "N/A"/"n/a"/"". It parses the one-pass cleaning of its text, and nothing when the cleaning leaves an empty text. |
| ValueParsing.LocateParseIsCharwise | debug_http_api.py:211-221 | `find_sensor_locations` parses any truthy value except the string "N/A", through the same cleaning. |
| ValueParsing.ParseFloat | sensor_discovery.py:227-228 | A successful parse needs a non-empty text holding a digit. |
| ValueParsing.ParsedHasAtMostOneDot | debug_http_api.py:174-175 | A cleaned text parses only if it holds at most one '.'. |
| ValueParsing.ParseNatText | sensor_discovery.py:271 | Parsing inverts rendering: `float(str(n)) == n` and `float("-" + str(n)) == -n`. |
| ValueParsing.ParseDecimal | sensor_discovery.py:227-228 | Any two digit runs joined by '.', at least one non-empty, parse to whole + frac / 10^|frac|, the number the text denotes. |
| ValueParsing.ParseUnsignedSigned | sensor_discovery.py:227-228 | A text without a leading sign parses as its unsigned value, and with a leading '-' to the negation of that value. |
| ValueParsing.CommaDecimalParses | sensor_discovery.py:224-228 | For all digit runs and every unit of dropped characters, "whole,frac unit" is cleaned and parsed to the decimal number whole.frac. |
| ValueParsing.CommaSplitCleans | sensor_discovery.py:224-226 | For any whole and fractional digit runs and any unit made only of dropped characters, "whole,frac unit" cleans to "whole.frac": the comma becomes the decimal point and the unit vanishes. |
| ValueParsing.UnitDropped | sensor_discovery.py:224-226 | Kept characters followed by a unit made only of dropped characters clean to the kept characters alone. |
| ValueParsing.SeparatorAndUnitDoNotMatter | sensor_discovery.py:224-229 | "45,2 °C" and "45.2°C" both parse to 45.2. |
| ValueParsing.PlaceholdersNotParsed | debug_http_api.py:168 | "N/A", the empty string and None are never parsed by either walker. |
| Investigation.ClassifyHardwareRule | sensor_discovery.py:315-319 | A node is investigated iff its lower-cased Text holds one of the eight keywords. It is CPU iff it holds ryzen/intel/cpu/processor, even together with a GPU keyword; otherwise it is GPU. |
| Investigation.CpuKeywordWinsExample | sensor_discovery.py:316-317 | "AMD Ryzen 7" contains the GPU keyword "amd", yet it is classified CPU. |
| Investigation.EmptyTextNotInvestigated | sensor_discovery.py:312 | A node without Text (read as "") is never investigated. |
| Investigation.CategoryOf | sensor_discovery.py:325-332 | A category reports its `count_sensors`. Its samples are the first min(2, count) sensors of its depth-first order. |
| Investigation.Investigate | sensor_discovery.py:308-337 | Every reported inspection's kind is the one its own Text classifies to. |
| Investigation.Objects | sensor_discovery.py:306-337 | The reference enumeration of the objects both investigations visit, parent before children; it holds only objects. |
| Investigation.InvestigateIsPerObject | sensor_discovery.py:308-337 | The recursive CPU/GPU walk prints exactly the per-object reports of the pre-order object list, in that order. |
| Investigation.InvestigateComplete | sensor_discovery.py:312-332 | No investigated object is missed: every object of the tree whose Text classifies to a kind is reported with that kind, its Text (or "Unknown") and its categories. |
| Investigation.FanStatus | sensor_discovery.py:386-393 | A status is computed only for a truthy value whose text contains "RPM". |
| Investigation.FanStatusOfReading | sensor_discovery.py:387-390 | The reading "<n> RPM" gets Stopped for 0, Running below 1000, and High Speed from 1000 on. |
| Investigation.FanNamedChildNotDescended | sensor_discovery.py:356-363 | A child whose Text contains "fan" contributes at most itself. Its own children are not scanned for fans. |
| Investigation.GrandchildSources | sensor_discovery.py:363-368 | Every fan category found under a non-fan child has a positive count equal to its `count_sensors`. The scan fails (KeyError) only when the child has no Text. |
| Investigation.GrandchildSourcesExact | sensor_discovery.py:363-368 | The grandchild scan raises KeyError exactly when the child has no Text and some fan-named grandchild has a positive count. Otherwise it lists every such grandchild as "<child>/<grandchild>" with its count, and nothing else. |
| Investigation.ChildSourcesAborts | sensor_discovery.py:352-368 | A child raises KeyError exactly when it is an object without Text, has a `Children` field, and has a fan-named child with a positive count. |
| Investigation.NodeSources | sensor_discovery.py:351-368 | Every collected category has a positive count. A KeyError is possible only when some child object lacks Text. |
| Investigation.NodeSourcesExact | sensor_discovery.py:351-368 | A node's scan raises exactly when one of its children's does. Otherwise every category that any child contributes is in the node's list. |
| Investigation.NodeSourcesComplete | sensor_discovery.py:356-368 | When the scan completes, every fan-named child with a positive count is listed under its own Text. Every qualifying grandchild of a non-fan child that has Text is listed as "<child>/<grandchild>". |
| Investigation.InvestigateFans | sensor_discovery.py:340-398 | Every node reported by the fan walk has at least one category, and every category at least one counted sensor. |
| Investigation.InvestigateFansIsPerObject | sensor_discovery.py:340-398 | The recursive fan walk prints exactly what visiting the pre-order object list one by one prints. It stops at the first object whose scan raises, keeping the reports made before it. |
| Investigation.FanWalkAborts | sensor_discovery.py:352-368 | The fan walk ends in KeyError exactly when collecting some object's fan categories raises. |
| Investigation.FanWalkComplete | sensor_discovery.py:371-374 | When the walk completes, every object with at least one fan category is reported under its Text (or "Unknown") with those categories. |
| Investigation.FanWalkCompletes | sensor_discovery.py:360-368 | On a tree whose objects all carry Text, the fan walk never ends in a KeyError. |
| Wmi.Reading | hardware_exporter.py:75 | A missing (or zero) value reads as 0; any other value is kept. |
| FanDetection.CategorizeRule | test_fans.py:51-77 | Category priority is GPU ("gpu"/"vga") over CPU ("cpu") over Chassis ("cha"/"case"; "chassis" adds nothing) over Other, on the lower-cased name. |
| FanDetection.GpuLabelByDigit | test_fans.py:55-60 | A GPU label is gpu_fan_1 iff '1' occurs in the name, gpu_fan_2 iff '2' occurs and '1' does not, and gpu_fan otherwise. |
| FanDetection.ChassisLabelByFirstDigit | test_fans.py:64-75 | The chassis label is chassis_fan_k for the first k in 1..4 occurring in the name, else chassis_fan. The "#k" tests never change the outcome. |
| FanDetection.FanLabel | test_fans.py:55-78 | Every fan label, whatever the category (gpu_fan[_k], cpu_fan, chassis_fan[_k], or the name transform for Other), holds no space, no '#' and no upper-case letter. |
| FanDetection.MetricLabelCharwise | test_fans.py:78 | The label chain (lower-case, ' ' to '_', '#' removed) is a per-character transform. It never leaves a space, a '#' or an upper-case letter, and is never longer than the name. |
| FanDetection.CollectFans | test_fans.py:44-47 | Every collected fan comes from a sensor whose `SensorType` is "Fan". |
| FanDetection.CollectFansComplete | test_fans.py:44-45 | No Fan sensor is dropped. |
| FanDetection.CollectFansAppend | test_fans.py:44-93 | The fans of a concatenation of sensor lists are the fans of each part, in order. Together with `CollectFansOne` this fixes `all_fan_data`: one record per Fan sensor, in query order. |
| FanDetection.CollectFansOne | test_fans.py:44-45 | A single sensor yields its fan record exactly when its type is "Fan", and nothing otherwise. |
| FanDetection.BuildBuckets | test_fans.py:80-85 | A category is a key of `fans_by_type` iff some fan has it. Its list is exactly that category's fans, in order. |
| FanDetection.BucketSizesSum | test_fans.py:80-93 | Each fan lands in exactly one bucket, so the four bucket sizes add up to the number of fans. |
| FanDetection.TypeLabelIsLower | test_fans.py:131 | `fan['type'].lower()` gives "gpu", "cpu", "chassis" and "other", a different label for each category. |
| FanDetection.SummaryByType | test_fans.py:80-134 | The summary rows typed with a category's label are, in order, the rows of that category's bucket. So the table agrees with the per-category listing, including the number of rows of each type. |
| FanDetection.SummaryRunning | test_fans.py:133 | The table shows RUNNING on exactly as many rows as there are fans with a positive reading. |
| FanDetection.DetectFans | test_fans.py:19-134 | The exit status is 1 iff connecting or querying failed or no fan was found, else 0. The bucket keys are exactly the categories with a non-empty bucket, each holding that bucket. On success the summary is one row per collected fan, in order; on failure nothing is summarised. |
| Exporter.ResolveLabels | hardware_exporter.py:26-35 | When `labels(...)` succeeds, exactly the declared label names were passed, as many as declared. A missing or an extra label name raises. |
| Exporter.ResolveRoundTrip | hardware_exporter.py:26-35 | The round trip: passing each declared label once, by name, yields exactly the values passed, in declared order. |
| Exporter.RouteIsFirstMatch | hardware_exporter.py:78-126 | Dispatch is first-match in source order. A sensor is routed iff some branch test accepts it, to the first such gauge, with the sensor's reading as value. |
| Exporter.CpuWinsOverGpu | hardware_exporter.py:79-94 | A Temperature/Load/Clock sensor whose parent contains "CPU" goes to a CPU gauge, even if the parent also names NVIDIA/AMD/Radeon. |
| Exporter.SmallDataMemoryIsGpuMemory | hardware_exporter.py:105-107 | A SmallData "Memory Used" sensor goes to `gpu_memory` whatever its parent. |
| Exporter.SystemMemoryWritten | hardware_exporter.py:121-126 | A "Data" sensor naming "Memory Used" sets `memory_used` to its reading, else one naming "Memory Available" sets `memory_available`, with no labels and without raising; any other "Data" sensor updates nothing. |
| Exporter.ResolveNoLabels | hardware_exporter.py:124 | A gauge with no declared labels, given no label arguments, resolves to the unlabelled series. |
| Exporter.CoreLabelShape | hardware_exporter.py:85 | A CPU core label never holds '#' or a space. |
| Exporter.CoreLabelExample | hardware_exporter.py:84-85 | "CPU Core #1" becomes "core1". |
| Exporter.AfterLastSlash | hardware_exporter.py:95 | `split("/")[-1]` is the longest '/'-free suffix: a suffix without '/', preceded by '/' when shorter than the text. |
| Exporter.GpuName | hardware_exporter.py:100 | The GPU name is "gpu0" when the parent has no '/'. Otherwise it is the part after the last '/'. |
| Exporter.Subtype | hardware_exporter.py:101 | The GPU load/clock type is one of "core", "memory", "other". It is "core" exactly when the name contains "Core", and "memory" exactly when it contains "Memory" but not "Core". |
| Exporter.SubtypeIsCaseSensitive | hardware_exporter.py:111 | The test is case-sensitive: "GPU Core" is "core" but "GPU core" is "other". |
| Exporter.SubtypeOfCoreSuffix | hardware_exporter.py:111 | Every name ending in "Core" has the "core" type. |
| Exporter.SubtypeWithoutCapitals | hardware_exporter.py:111 | A name with neither 'C' nor 'M' contains neither "Core" nor "Memory", so its type is "other". |
| Exporter.UpdateMetrics | hardware_exporter.py:63-130 | An empty or failed sensor list logs the warning and changes nothing. Otherwise each series ends with the value of the last sensor that set it, all other series are unchanged, and the sensors that raised are skipped, in order. |
| Exporter.EditionsAgreeOffFans | hardware_exporter.py:116-119 | The corrected exporter differs from the one as written only on Fan sensors. |
| Exporter.FanSensorRaisesAsWritten | hardware_exporter.py:116-119 | As written, every Fan sensor raises ValueError: `fan_rpm` declares "fan" and "type" but gets "fan" alone. |
| Exporter.FanGaugeNeverSetAsWritten | hardware_exporter.py:35 | Hence, as written, no cycle ever sets a `fan_speed_rpm` series. |
| Exporter.CorrectedNeverRaises | hardware_exporter.py:26-35 | With both fan labels supplied, no sensor raises. A Fan sensor sets `fan_speed_rpm{fan=<exporter fan label>, type=<lower-cased category>}` to its reading. |
| Exporter.FanLabelCounterexample | hardware_exporter.py:116-119 | A "CPU Fan" at 1200 RPM is lost as written. The corrected version records it as `fan_speed_rpm{fan="cpu_fan", type="cpu"}`. |
| Exporter.LastOfRole | hardware_exporter.py:142-151 | The last hardware of a role is a hardware of that role with none of that role after it. There is none iff no hardware has that role. |
| Exporter.GetSystemInfo | hardware_exporter.py:132-156 | Every field starts as "Unknown". When no entry raises, each field ends as the name of the last hardware of its role (CPU: "CPU" or containing "Processor"; GPU: GpuNvidia/GpuAmd; Motherboard). The `try` covers the whole loop, so a failed query or any entry whose `HardwareType` is not a string (TypeError in `"Processor" in hw_type`) leaves all three "Unknown" and discards the names already found. |

## Left out

- Printing and formatting are not modelled: indentation depth, emoji, column widths and the "Parsed:" number rendering. What is printed is returned as data instead.
- The HTTP fetch and status checks of both `test_http_api` functions are not modelled, nor the WMI connection and the `w.Sensor()`/`w.Hardware()` calls. Their results are inputs, and a failure is `None`.
- `prometheus_client` internals are not modelled. Gauges are a map, and `labels` is modelled only by its label-name check. The `system` Info metric and `start_http_server` are left out.
- `main()`, argparse, logging output and the service files (`service_manager.py`, `install_service.py`, `service_installer.py`) are left out. They are OS plumbing around the modelled functions.
- ValueParsing.ParseFloat: models `float()` only for plain decimal text (optional sign, digits, at most one '.'). Exponents, underscores, "inf"/"nan" and inner white space count as failures. The cleaned text can hold only digits, '.', '-' and '\\', so only the fan RPM path could see such forms.
- Investigation.Investigate: a `Children` value that is not a list is treated as holding no objects. The script would instead raise TypeError when it iterates a number or null there.
- Investigation.InvestigateFans: the same simplification for a non-iterable `Children` value.
- A `Text` that is present but not a string (the scripts would fail on `.lower()`) is not modelled; `Text` is always a string when present.
- Wmi.Reading: a WMI `Value` is a number or missing. A non-numeric value, on which `float()` raises and the sensor is skipped, is not modelled.
- A missing `Parent` (a TypeError in `"CPU" in parent`) is not modelled.
- Exporter.GetSystemInfo: a hardware `Name` is always a string. The loop would store a non-string name unchanged; such a field is not modelled. A non-string `HardwareType` is modelled (it raises and resets every field).
- Exporter.UpdateMetrics: a sensor's `SensorType` and `Name` are always strings. A non-string `Name` would raise in the branches that lower it (`sensor_name.lower()`, hardware_exporter.py:84) and the sensor would be skipped; that path is not modelled.
- FanDetection.DetectFans: a fan sensor's `Name` is always a string. A non-string one would make `sensor_name.lower()` (test_fans.py:49) raise uncaught and end the script; that crash is not modelled.
- Strings.Lower: lowers only the ASCII letters A-Z. Python's `str.lower()` is full Unicode: "Ü" becomes "ü", and "İ" becomes two characters. Names with non-ASCII letters may therefore lower differently here than in the program.
- FanDetection.MetricLabelCharwise: the bound "never longer than the name" and the per-character reference hold for the ASCII-only `Lower`. Under Python's `lower()` a name with "İ" gets a longer label.
- FanDetection.FanLabel: "no upper-case letter" means no ASCII A-Z. An Other fan's label keeps any non-ASCII capital of its name, which Python's `lower()` would turn to lower case.
- Exporter.CoreLabelShape: stated for the ASCII-only `Lower`. Python's `lower()` never produces '#' or ' ' either, so the shape is expected to carry over, but that is not proved here.
- ValueParsing.ParseFloat: yields the exact rational value of the decimal text. There is no binary64 rounding and no overflow to infinity. Python reads "999.99999999999999999 RPM" as 1000.0 (High Speed), while the model keeps it below 1000 (Running).
- Exporter.ResolveLabels: `str()` conversion of label values is not modelled; all label values are already strings here.

## Findings

| source | as written | input that shows it | evidently intended | confidence | as-written member | corrected member |
|---|---|---|---|---|---|---|
| hardware_exporter.py:35, 116-119 | `fan_rpm` is declared with the labels `fan` and `type`, but `update_metrics` calls `fan_rpm.labels(fan=fan_name)`. prometheus_client raises ValueError, which the loop's `except` swallows at debug level, so no fan speed is ever exported. | A WMI sensor of type "Fan", name "CPU Fan", value 1200 | Supply both labels: `fan` is the exporter's own fan label (hardware_exporter.py:118), and `type` is the lower-cased fan category, as test_fans.py:131 prints it. For this sensor: `fan_speed_rpm{fan="cpu_fan", type="cpu"} = 1200`. Only the `type` value follows test_fans.py: for "CPU Fan #1" the series gets fan="cpu_fan_1", while test_fans.py prints fan="cpu_fan". | not executed | Exporter.FanLabelCounterexample | Exporter.CorrectedNeverRaises |
