/**
 * From an HPA configuration to the metric list of the created object, and back. A quantity is its
 * numeric value; `parse` reads one from text and yields None where the library would panic.
 */
module HPAMetrics {
  import opened Common

  type Parser = string -> Option<int>

  datatype Resource = CPU | Memory | OtherResource

  datatype Target = Utilization(percent: int) | AverageValue(quantity: int)

  datatype Metric =
    | ResourceMetric(res: Resource, target: Target)
    | ContainerMetric(res: Resource, container: string, target: Target)

  const DEFAULT_CONTAINER := "test-container"

  datatype Config = Config(
    cpuUtilization: Option<int>, cpuAverage: string,
    memUtilization: Option<int>, memAverage: string,
    containerName: string,
    containerCpuUtilization: Option<int>, containerCpuAverage: string,
    containerMemUtilization: Option<int>, containerMemAverage: string)

  const EMPTY := Config(None, "", None, "", "", None, "", None, "")

  // ---------- The settings, numbered in the order they are emitted ----------

  const SETTINGS: nat := 8

  /** What a setting asks for: even ones are percentages, odd ones quantities given as text. */
  function Percent(cfg: Config, t: nat): Option<int> {
    if t == 0 then cfg.cpuUtilization
    else if t == 2 then cfg.memUtilization
    else if t == 4 then cfg.containerCpuUtilization
    else if t == 6 then cfg.containerMemUtilization
    else None
  }

  function Text(cfg: Config, t: nat): string {
    if t == 1 then cfg.cpuAverage
    else if t == 3 then cfg.memAverage
    else if t == 5 then cfg.containerCpuAverage
    else if t == 7 then cfg.containerMemAverage
    else ""
  }

  function ContainerOf(cfg: Config): string {
    if cfg.containerName == "" then DEFAULT_CONTAINER else cfg.containerName
  }

  /** The value asked for by setting t, if it is set. */
  function Asked(cfg: Config, parse: Parser, t: nat): Option<Target> {
    if Percent(cfg, t).Some? then Some(Utilization(Percent(cfg, t).value))
    else if Text(cfg, t) != "" && parse(Text(cfg, t)).Some? then Some(AverageValue(parse(Text(cfg, t)).value))
    else None
  }

  function MetricFor(cfg: Config, t: nat, target: Target): Metric {
    var res := if t in {0, 1, 4, 5} then CPU else Memory;
    if t < 4 then ResourceMetric(res, target) else ContainerMetric(res, ContainerOf(cfg), target)
  }

  /** What setting t adds to the list. */
  function Emitted(cfg: Config, parse: Parser, t: nat): seq<Metric> {
    if Asked(cfg, parse, t).Some? then [MetricFor(cfg, t, Asked(cfg, parse, t).value)] else []
  }

  /** The metrics of the first n settings. */
  function MetricsOf(cfg: Config, parse: Parser, n: nat): seq<Metric> {
    if n == 0 then [] else MetricsOf(cfg, parse, n - 1) + Emitted(cfg, parse, n - 1)
  }

  /** Every quantity that is given parses; otherwise MustParse panics. */
  predicate Parses(cfg: Config, parse: Parser, n: nat) {
    forall t :: 0 <= t < n ==> Text(cfg, t) == "" || parse(Text(cfg, t)).Some?
  }

  /** A percentage, if given. */
  function Percentage(p: Option<int>): seq<Target> { if p.Some? then [Utilization(p.value)] else [] }

  /** A quantity, if given and readable. */
  function Quantity(text: string, parse: Parser): seq<Target> {
    if text != "" && parse(text).Some? then [AverageValue(parse(text).value)] else []
  }

  function OnResource(res: Resource, targets: seq<Target>): seq<Metric> {
    seq(|targets|, i requires 0 <= i < |targets| => ResourceMetric(res, targets[i]))
  }

  function OnContainer(res: Resource, container: string, targets: seq<Target>): seq<Metric> {
    seq(|targets|, i requires 0 <= i < |targets| => ContainerMetric(res, container, targets[i]))
  }

  lemma ResourceHalf(cfg: Config, parse: Parser)
    ensures MetricsOf(cfg, parse, 4)
         == OnResource(CPU, Percentage(cfg.cpuUtilization)) + OnResource(CPU, Quantity(cfg.cpuAverage, parse))
            + OnResource(Memory, Percentage(cfg.memUtilization)) + OnResource(Memory, Quantity(cfg.memAverage, parse))
  {
    assert MetricsOf(cfg, parse, 0) == [];
    assert Emitted(cfg, parse, 0) == OnResource(CPU, Percentage(cfg.cpuUtilization));
    assert MetricsOf(cfg, parse, 1) == Emitted(cfg, parse, 0);
    assert MetricsOf(cfg, parse, 2) == MetricsOf(cfg, parse, 1) + Emitted(cfg, parse, 1);
    assert MetricsOf(cfg, parse, 3) == MetricsOf(cfg, parse, 2) + Emitted(cfg, parse, 2);
    assert MetricsOf(cfg, parse, 4) == MetricsOf(cfg, parse, 3) + Emitted(cfg, parse, 3);
    assert Emitted(cfg, parse, 1) == OnResource(CPU, Quantity(cfg.cpuAverage, parse));
    assert Emitted(cfg, parse, 2) == OnResource(Memory, Percentage(cfg.memUtilization));
    assert Emitted(cfg, parse, 3) == OnResource(Memory, Quantity(cfg.memAverage, parse));
  }

  lemma ContainerHalf(cfg: Config, parse: Parser, c: string)
    requires c == if cfg.containerName == "" then "test-container" else cfg.containerName
    ensures MetricsOf(cfg, parse, 8)
         == MetricsOf(cfg, parse, 4)
            + OnContainer(CPU, c, Percentage(cfg.containerCpuUtilization))
            + OnContainer(CPU, c, Quantity(cfg.containerCpuAverage, parse))
            + OnContainer(Memory, c, Percentage(cfg.containerMemUtilization))
            + OnContainer(Memory, c, Quantity(cfg.containerMemAverage, parse))
  {
    assert MetricsOf(cfg, parse, 5) == MetricsOf(cfg, parse, 4) + Emitted(cfg, parse, 4);
    assert MetricsOf(cfg, parse, 6) == MetricsOf(cfg, parse, 5) + Emitted(cfg, parse, 5);
    assert MetricsOf(cfg, parse, 7) == MetricsOf(cfg, parse, 6) + Emitted(cfg, parse, 6);
    assert MetricsOf(cfg, parse, 8) == MetricsOf(cfg, parse, 7) + Emitted(cfg, parse, 7);
    assert Emitted(cfg, parse, 4) == OnContainer(CPU, c, Percentage(cfg.containerCpuUtilization));
    assert Emitted(cfg, parse, 5) == OnContainer(CPU, c, Quantity(cfg.containerCpuAverage, parse));
    assert Emitted(cfg, parse, 6) == OnContainer(Memory, c, Percentage(cfg.containerMemUtilization));
    assert Emitted(cfg, parse, 7) == OnContainer(Memory, c, Quantity(cfg.containerMemAverage, parse));
  }

  /** The whole list in the fields of the configuration: for the pods and then for one container, for CPU
      and then for memory, the percentage and then the quantity, each if it is given. */
  lemma ListInFields(cfg: Config, parse: Parser, c: string)
    requires c == if cfg.containerName == "" then "test-container" else cfg.containerName
    ensures MetricsOf(cfg, parse, SETTINGS)
         == OnResource(CPU, Percentage(cfg.cpuUtilization)) + OnResource(CPU, Quantity(cfg.cpuAverage, parse))
            + OnResource(Memory, Percentage(cfg.memUtilization)) + OnResource(Memory, Quantity(cfg.memAverage, parse))
            + OnContainer(CPU, c, Percentage(cfg.containerCpuUtilization))
            + OnContainer(CPU, c, Quantity(cfg.containerCpuAverage, parse))
            + OnContainer(Memory, c, Percentage(cfg.containerMemUtilization))
            + OnContainer(Memory, c, Quantity(cfg.containerMemAverage, parse))
  {
    ResourceHalf(cfg, parse);
    ContainerHalf(cfg, parse, c);
  }

  /** With all eight settings given and readable, the list in full. */
  lemma AllEight(u1: int, q1: string, u2: int, q2: string, u3: int, q3: string, u4: int, q4: string,
                 name: string, parse: Parser)
    requires name != "" && forall q :: q in [q1, q2, q3, q4] ==> q != "" && parse(q).Some?
    ensures MetricsOf(Config(Some(u1), q1, Some(u2), q2, name, Some(u3), q3, Some(u4), q4), parse, SETTINGS)
         == [ResourceMetric(CPU, Utilization(u1)), ResourceMetric(CPU, AverageValue(parse(q1).value)),
             ResourceMetric(Memory, Utilization(u2)), ResourceMetric(Memory, AverageValue(parse(q2).value)),
             ContainerMetric(CPU, name, Utilization(u3)), ContainerMetric(CPU, name, AverageValue(parse(q3).value)),
             ContainerMetric(Memory, name, Utilization(u4)), ContainerMetric(Memory, name, AverageValue(parse(q4).value))]
  {
    assert forall q :: q == q1 || q == q2 || q == q3 || q == q4 ==> q in [q1, q2, q3, q4];
    ListInFields(Config(Some(u1), q1, Some(u2), q2, name, Some(u3), q3, Some(u4), q4), parse, name);
  }

  /** No panic: each of the four quantities is left empty or can be read. */
  lemma ParsesExactly(cfg: Config, parse: Parser)
    ensures Parses(cfg, parse, SETTINGS)
       <==> && (cfg.cpuAverage == "" || parse(cfg.cpuAverage).Some?)
            && (cfg.memAverage == "" || parse(cfg.memAverage).Some?)
            && (cfg.containerCpuAverage == "" || parse(cfg.containerCpuAverage).Some?)
            && (cfg.containerMemAverage == "" || parse(cfg.containerMemAverage).Some?)
  {
    assert Text(cfg, 1) == cfg.cpuAverage && Text(cfg, 3) == cfg.memAverage;
    assert Text(cfg, 5) == cfg.containerCpuAverage && Text(cfg, 7) == cfg.containerMemAverage;
  }

  // ---------- The code ----------

  /** The second half of CreateHPA: the metrics of one container. */
  method AddContainerMetrics(cfg: Config, parse: Parser, before: seq<Metric>) returns (metrics: Option<seq<Metric>>)
    requires before == MetricsOf(cfg, parse, 4) && Parses(cfg, parse, 4)
    ensures metrics == if Parses(cfg, parse, SETTINGS) then Some(MetricsOf(cfg, parse, SETTINGS)) else None
  {
    var list := before;
    var containerName := cfg.containerName;
    if containerName == "" {
      containerName := DEFAULT_CONTAINER;
    }
    if cfg.containerCpuUtilization.Some? {
      list := list + [ContainerMetric(CPU, containerName, Utilization(cfg.containerCpuUtilization.value))];
    }
    assert list == MetricsOf(cfg, parse, 5);
    if cfg.containerCpuAverage != "" {
      var q := parse(cfg.containerCpuAverage);
      assert cfg.containerCpuAverage == Text(cfg, 5);
      if q.None? { return None; }
      list := list + [ContainerMetric(CPU, containerName, AverageValue(q.value))];
    }
    assert list == MetricsOf(cfg, parse, 6);
    if cfg.containerMemUtilization.Some? {
      list := list + [ContainerMetric(Memory, containerName, Utilization(cfg.containerMemUtilization.value))];
    }
    assert list == MetricsOf(cfg, parse, 7);
    if cfg.containerMemAverage != "" {
      var q := parse(cfg.containerMemAverage);
      assert cfg.containerMemAverage == Text(cfg, 7);
      if q.None? { return None; }
      list := list + [ContainerMetric(Memory, containerName, AverageValue(q.value))];
    }
    assert list == MetricsOf(cfg, parse, 8);
    return Some(list);
  }

  /** None is a panic. */
  method CreateHPA(cfg: Config, parse: Parser) returns (metrics: Option<seq<Metric>>)
    ensures metrics == if Parses(cfg, parse, SETTINGS) then Some(MetricsOf(cfg, parse, SETTINGS)) else None
  {
    var list: seq<Metric> := [];
    if cfg.cpuUtilization.Some? {
      list := list + [ResourceMetric(CPU, Utilization(cfg.cpuUtilization.value))];
    }
    assert list == MetricsOf(cfg, parse, 1);
    if cfg.cpuAverage != "" {
      var q := parse(cfg.cpuAverage);
      assert cfg.cpuAverage == Text(cfg, 1);
      if q.None? { return None; }
      list := list + [ResourceMetric(CPU, AverageValue(q.value))];
    }
    assert list == MetricsOf(cfg, parse, 2);
    if cfg.memUtilization.Some? {
      list := list + [ResourceMetric(Memory, Utilization(cfg.memUtilization.value))];
    }
    assert list == MetricsOf(cfg, parse, 3);
    if cfg.memAverage != "" {
      var q := parse(cfg.memAverage);
      assert cfg.memAverage == Text(cfg, 3);
      if q.None? { return None; }
      list := list + [ResourceMetric(Memory, AverageValue(q.value))];
    }
    assert list == MetricsOf(cfg, parse, 4);
    metrics := AddContainerMetrics(cfg, parse, list);
  }

  // ---------- Reading a metric list ----------

  /** Which setting a metric comes from, told from the metric alone. */
  function Tag(m: Metric): nat {
    (if m.ContainerMetric? then 4 else 0) + (if m.res == CPU then 0 else 2) + (if m.target.Utilization? then 0 else 1)
  }

  function Find(list: seq<Metric>, t: nat): Option<Metric> {
    if list == [] then None
    else if Tag(list[|list| - 1]) == t then Some(list[|list| - 1])
    else Find(list[..|list| - 1], t)
  }

  lemma FindSnoc(list: seq<Metric>, m: Metric, t: nat)
    ensures Find(list + [m], t) == if Tag(m) == t then Some(m) else Find(list, t)
  {
    assert (list + [m])[..|list|] == list;
  }

  lemma TagOfSetting(cfg: Config, parse: Parser, t: nat)
    requires t < SETTINGS && Asked(cfg, parse, t).Some?
    ensures Tag(MetricFor(cfg, t, Asked(cfg, parse, t).value)) == t
  {
    assert t in {0, 1, 2, 3, 4, 5, 6, 7};
  }

  lemma FindEmitted(before: seq<Metric>, cfg: Config, parse: Parser, n: nat, t: nat)
    requires n < SETTINGS
    ensures Find(before + Emitted(cfg, parse, n), t) ==
              if t == n && Asked(cfg, parse, n).Some? then Some(MetricFor(cfg, n, Asked(cfg, parse, n).value))
              else Find(before, t)
  {
    if Asked(cfg, parse, n).Some? {
      TagOfSetting(cfg, parse, n);
      FindSnoc(before, MetricFor(cfg, n, Asked(cfg, parse, n).value), t);
    } else {
      assert before + [] == before;
    }
  }

  /** The list can be read back: each setting is recovered from the metric with its tag, and is absent
      from the list exactly when it was not set. */
  lemma {:induction false} SettingsRecovered(cfg: Config, parse: Parser, n: nat, t: nat)
    requires n <= SETTINGS && t < SETTINGS
    ensures Find(MetricsOf(cfg, parse, n), t) ==
              if t < n && Asked(cfg, parse, t).Some? then Some(MetricFor(cfg, t, Asked(cfg, parse, t).value)) else None
  {
    if n > 0 {
      SettingsRecovered(cfg, parse, n - 1, t);
      FindEmitted(MetricsOf(cfg, parse, n - 1), cfg, parse, n - 1, t);
    }
  }

  /** Tags are distinct and come in a fixed order, so the list is determined by the settings. */
  lemma {:induction false} TagsInOrder(cfg: Config, parse: Parser, n: nat)
    requires n <= SETTINGS
    ensures forall i :: 0 <= i < |MetricsOf(cfg, parse, n)| ==> Tag(MetricsOf(cfg, parse, n)[i]) < n
    ensures forall i, j :: 0 <= i < j < |MetricsOf(cfg, parse, n)| ==>
              Tag(MetricsOf(cfg, parse, n)[i]) < Tag(MetricsOf(cfg, parse, n)[j])
  {
    if n > 0 {
      TagsInOrder(cfg, parse, n - 1);
      if Asked(cfg, parse, n - 1).Some? {
        TagOfSetting(cfg, parse, n - 1);
      }
    }
  }

  /** Two configurations ask for the same: equal settings, and the same container if any container
      setting is set. (An empty container name is the same as the default one.) */
  ghost predicate SameRequest(c: Config, d: Config, parse: Parser) {
    && (forall t :: 0 <= t < SETTINGS ==> Asked(c, parse, t) == Asked(d, parse, t))
    && ((exists t :: 4 <= t < SETTINGS && Asked(c, parse, t).Some?) ==> ContainerOf(c) == ContainerOf(d))
  }

  lemma {:induction false} SameMetrics(c: Config, d: Config, parse: Parser, n: nat)
    requires SameRequest(c, d, parse) && n <= SETTINGS
    ensures MetricsOf(c, parse, n) == MetricsOf(d, parse, n)
  {
    if n > 0 {
      SameMetrics(c, d, parse, n - 1);
      assert Asked(c, parse, n - 1) == Asked(d, parse, n - 1);
    }
  }

  /** The translation is invertible: equal metric lists come from equal requests, and only from those. */
  lemma TranslationIsInvertible(c: Config, d: Config, parse: Parser)
    ensures MetricsOf(c, parse, SETTINGS) == MetricsOf(d, parse, SETTINGS) <==> SameRequest(c, d, parse)
  {
    if SameRequest(c, d, parse) {
      SameMetrics(c, d, parse, SETTINGS);
    }
    if MetricsOf(c, parse, SETTINGS) == MetricsOf(d, parse, SETTINGS) {
      forall t | 0 <= t < SETTINGS
        ensures Asked(c, parse, t) == Asked(d, parse, t)
        ensures t >= 4 && Asked(c, parse, t).Some? ==> ContainerOf(c) == ContainerOf(d)
      {
        SettingsRecovered(c, parse, SETTINGS, t);
        SettingsRecovered(d, parse, SETTINGS, t);
      }
    }
  }

  // ---------- The builders ----------

  datatype TargetType = UtilizationType | AverageValueType | ValueType

  function Digits(n: nat): string {
    if n < 10 then ["0123456789"[n]] else Digits(n / 10) + ["0123456789"[n % 10]]
  }

  /** fmt's %d. */
  function Decimal(n: int): string { if n < 0 then ['-'] + Digits(-n) else Digits(n) }

  /** The number that a string of digits stands for, and with an optional sign. */
  function NumberOf(s: string): int {
    if s == "" then 0 else 10 * NumberOf(s[..|s| - 1]) + (s[|s| - 1] as int - '0' as int)
  }

  function SignedNumberOf(s: string): int {
    if s != "" && s[0] == '-' then -NumberOf(s[1..]) else NumberOf(s)
  }

  lemma DigitValue(n: nat)
    requires n < 10
    ensures "0123456789"[n] as int - '0' as int == n
  {
    assert n in {0, 1, 2, 3, 4, 5, 6, 7, 8, 9};
  }

  lemma {:induction false} DigitsReadBack(n: nat)
    ensures Digits(n) != "" && Digits(n)[0] != '-' && NumberOf(Digits(n)) == n
  {
    if n < 10 {
      DigitValue(n);
      assert Digits(n)[..0] == "";
    } else {
      DigitsReadBack(n / 10);
      DigitValue(n % 10);
      assert Digits(n)[..|Digits(n)| - 1] == Digits(n / 10);
      assert Digits(n)[0] == Digits(n / 10)[0];
    }
  }

  lemma SignReadsBack(d: string)
    requires d != "" && d[0] != '-'
    ensures SignedNumberOf(d) == NumberOf(d) && SignedNumberOf(['-'] + d) == -NumberOf(d)
  {
    assert (['-'] + d)[1..] == d;
  }

  /** Decimal text reads back as the number it was written for. */
  lemma DecimalReadsBack(n: int)
    ensures SignedNumberOf(Decimal(n)) == n
  {
    var m: nat := if n < 0 then -n else n;
    DigitsReadBack(m);
    SignReadsBack(Digits(m));
  }

  function TargetValue(avgValue: int, avgUtilization: int, t: TargetType): int {
    if t.UtilizationType? then avgUtilization else avgValue
  }

  function BuildResource(res: Resource, t: TargetType, v: int): Config {
    if res.CPU? && t.UtilizationType? then EMPTY.(cpuUtilization := Some(v))
    else if res.CPU? && t.AverageValueType? then EMPTY.(cpuAverage := Decimal(v) + "m")
    else if res.Memory? && t.UtilizationType? then EMPTY.(memUtilization := Some(v))
    else if res.Memory? && t.AverageValueType? then EMPTY.(memAverage := Decimal(v) + "Mi")
    else EMPTY
  }

  function BuildContainer(name: string, res: Resource, t: TargetType, v: int): Config {
    var cfg := EMPTY.(containerName := name);
    if res.CPU? && t.UtilizationType? then cfg.(containerCpuUtilization := Some(v))
    else if res.CPU? && t.AverageValueType? then cfg.(containerCpuAverage := Decimal(v) + "m")
    else if res.Memory? && t.UtilizationType? then cfg.(containerMemUtilization := Some(v))
    else if res.Memory? && t.AverageValueType? then cfg.(containerMemAverage := Decimal(v) + "Mi")
    else cfg
  }

  predicate Supported(res: Resource, t: TargetType) { !res.OtherResource? && !t.ValueType? }

  function Unit(res: Resource): string { if res.CPU? then "m" else "Mi" }

  /** What the test asks for: its percentage, or its average as a quantity written with the unit. */
  function Request(res: Resource, t: TargetType, avg: int, percent: int, parse: Parser): Option<Target> {
    var quantity := parse(Decimal(avg) + Unit(res));
    if t.UtilizationType? then Some(Utilization(percent))
    else if quantity.Some? then Some(AverageValue(quantity.value))
    else None
  }

  /** A configuration with one setting gives a list of one metric. */
  lemma {:induction false} SingleSetting(cfg: Config, parse: Parser, k: nat, n: nat)
    requires n <= SETTINGS && forall t :: 0 <= t < SETTINGS && t != k ==> Asked(cfg, parse, t).None?
    ensures MetricsOf(cfg, parse, n) == if k < n then Emitted(cfg, parse, k) else []
  {
    if n > 0 {
      SingleSetting(cfg, parse, k, n - 1);
      assert n - 1 != k ==> Asked(cfg, parse, n - 1).None?;
    }
  }

  function SettingOf(res: Resource, t: TargetType): nat {
    (if res.CPU? then 0 else 2) + (if t.UtilizationType? then 0 else 1)
  }

  /** What the configurations built for a supported resource and target ask for: one thing. */
  lemma ResourceAsks(res: Resource, t: TargetType, avg: int, percent: int, parse: Parser, i: nat)
    requires Supported(res, t) && i < SETTINGS
    ensures Asked(BuildResource(res, t, TargetValue(avg, percent, t)), parse, i)
         == if i == SettingOf(res, t) then Request(res, t, avg, percent, parse) else None
  {
    assert i in {0, 1, 2, 3, 4, 5, 6, 7};
  }

  lemma ContainerAsks(name: string, res: Resource, t: TargetType, avg: int, percent: int, parse: Parser, i: nat)
    requires Supported(res, t) && i < SETTINGS
    ensures Asked(BuildContainer(name, res, t, TargetValue(avg, percent, t)), parse, i)
         == if i == 4 + SettingOf(res, t) then Request(res, t, avg, percent, parse) else None
  {
    assert i in {0, 1, 2, 3, 4, 5, 6, 7};
  }

  lemma ContainerMetricFor(name: string, res: Resource, t: TargetType, v: int, target: Target)
    requires Supported(res, t)
    ensures MetricFor(BuildContainer(name, res, t, v), 4 + SettingOf(res, t), target)
         == ContainerMetric(res, if name == "" then DEFAULT_CONTAINER else name, target)
  {
  }

  lemma ResourceYields(res: Resource, t: TargetType, avg: int, percent: int, parse: Parser)
    requires Supported(res, t) && Request(res, t, avg, percent, parse).Some?
    ensures var target, v := Request(res, t, avg, percent, parse).value, TargetValue(avg, percent, t);
            MetricsOf(BuildResource(res, t, v), parse, SETTINGS) == [ResourceMetric(res, target)]
  {
    var cfg := BuildResource(res, t, TargetValue(avg, percent, t));
    forall i | 0 <= i < SETTINGS
      ensures Asked(cfg, parse, i) == if i == SettingOf(res, t) then Request(res, t, avg, percent, parse) else None
    {
      ResourceAsks(res, t, avg, percent, parse, i);
    }
    SingleSetting(cfg, parse, SettingOf(res, t), SETTINGS);
  }

  lemma ContainerYields(name: string, res: Resource, t: TargetType, avg: int, percent: int, parse: Parser)
    requires Supported(res, t) && Request(res, t, avg, percent, parse).Some?
    ensures var target, v := Request(res, t, avg, percent, parse).value, TargetValue(avg, percent, t);
            MetricsOf(BuildContainer(name, res, t, v), parse, SETTINGS)
              == [ContainerMetric(res, if name == "" then DEFAULT_CONTAINER else name, target)]
  {
    var cfg := BuildContainer(name, res, t, TargetValue(avg, percent, t));
    forall i | 0 <= i < SETTINGS
      ensures Asked(cfg, parse, i) == if i == 4 + SettingOf(res, t) then Request(res, t, avg, percent, parse) else None
    {
      ContainerAsks(name, res, t, avg, percent, parse, i);
    }
    SingleSetting(cfg, parse, 4 + SettingOf(res, t), SETTINGS);
    ContainerMetricFor(name, res, t, TargetValue(avg, percent, t), Request(res, t, avg, percent, parse).value);
  }

  /** For CPU or memory and a percentage or an average, each builder yields exactly one metric, for that
      resource, with the percentage or with the average in millicores or mebibytes. */
  lemma BuildersYieldOneMetric(
    name: string, res: Resource, t: TargetType, avg: int, percent: int, parse: Parser, text: string)
    requires res in {CPU, Memory} && t in {UtilizationType, AverageValueType}
    requires text == Decimal(avg) + if res == CPU then "m" else "Mi"
    requires t == AverageValueType ==> parse(text).Some?
    ensures var target := if t == UtilizationType then Utilization(percent) else AverageValue(parse(text).value);
            var v := TargetValue(avg, percent, t);
            && MetricsOf(BuildResource(res, t, v), parse, SETTINGS) == [ResourceMetric(res, target)]
            && MetricsOf(BuildContainer(name, res, t, v), parse, SETTINGS)
               == [ContainerMetric(res, if name == "" then "test-container" else name, target)]
  {
    assert text == Decimal(avg) + Unit(res);
    ResourceYields(res, t, avg, percent, parse);
    ContainerYields(name, res, t, avg, percent, parse);
  }

  /** With any other resource or target type they silently yield none. */
  lemma UnsupportedYieldsNothing(name: string, res: Resource, t: TargetType, v: int, parse: Parser)
    requires res !in {CPU, Memory} || t !in {UtilizationType, AverageValueType}
    ensures MetricsOf(BuildResource(res, t, v), parse, SETTINGS) == []
    ensures MetricsOf(BuildContainer(name, res, t, v), parse, SETTINGS) == []
  {
    SingleSetting(BuildResource(res, t, v), parse, SETTINGS, SETTINGS);
    SingleSetting(BuildContainer(name, res, t, v), parse, SETTINGS, SETTINGS);
  }
}
