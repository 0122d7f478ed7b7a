/**
 * `TopProcessCollector.collect` of apps/collectors/top_processes.py: the
 * five processes using the most CPU, each as a `top_cpu.*` and a
 * `top_mem.*` metric named after its sanitised process name. psutil is
 * not modelled: the collector receives, for each PID in the listing, the
 * attributes `as_dict` returned or the fact that reading them raised.
 */
module TopProcesses {
  import opened Wrappers
  import opened Strings
  import opened Runtime
  import opened Sorting

  /** `as_dict(attrs=["pid", "name", "cpu_percent", "memory_percent"])`; an attribute psutil was denied is `None`. */
  datatype ProcInfo = ProcInfo(pid: int, name: Option<string>, cpu: Option<real>, mem: Option<real>)

  /** One PID of `psutil.pids()`: its attributes, or an exception while reading them, which skips it. */
  datatype Probe = Read(info: ProcInfo) | Failed

  /** A collected metric: its name and its value. */
  type Metric = (string, real)

  // ---------------------------------------------------------------------
  // Names

  /** `str.isalnum` on one character: ASCII letters and digits, and beyond ASCII what Unicode calls alphanumeric. */
  predicate IsAlnum(c: char, p: Platform) {
    || 'a' <= c <= 'z' || 'A' <= c <= 'Z' || '0' <= c <= '9'
    || (c > '\U{007F}' && p.unicodeAlnum(c))
  }

  /** The characters a name keeps: alphanumerics, `-`, `_` and `.`. */
  predicate NameChar(c: char, p: Platform) {
    IsAlnum(c, p) || c == '-' || c == '_' || c == '.'
  }

  predicate IsMetricName(s: string, p: Platform) {
    forall i :: 0 <= i < |s| ==> NameChar(s[i], p)
  }

  /** The comprehension: every character outside the kept ones becomes `_`. */
  function Sanitized(name: string, p: Platform): (r: string)
    ensures |r| == |name| && IsMetricName(r, p)
  {
    seq(|name|, i requires 0 <= i < |name| => if NameChar(name[i], p) then name[i] else '_')
  }

  const MaxNameLength := 32

  /** `clean_name`: sanitised and stripped of `_`, `pid_<pid>` when nothing is left, cut to 30 characters and `..` when too long. */
  function CleanName(name: string, pid: int, p: Platform): string {
    var stripped := Strip(Sanitized(name, p), {'_'});
    var named := if stripped == [] then "pid_" + IntToString(pid) else stripped;
    if |named| > MaxNameLength then named[..30] + ".." else named
  }

  lemma PidNameShape(pid: int, p: Platform)
    ensures var s := "pid_" + IntToString(pid);
      IsMetricName(s, p) && s[0] == 'p' && s[|s| - 1] != '_'
  {
    var s := "pid_" + IntToString(pid);
    forall i | 0 <= i < |s| ensures NameChar(s[i], p) {
      if i >= 4 {
        assert s[i] == IntToString(pid)[i - 4];
      }
    }
  }

  /** A clean name is never empty, at most 32 characters long, made of kept characters only, and neither starts nor ends with `_`. */
  lemma CleanNameShape(name: string, pid: int, p: Platform)
    ensures var r := CleanName(name, pid, p);
      && 0 < |r| <= MaxNameLength && IsMetricName(r, p)
      && r[0] != '_' && r[|r| - 1] != '_'
  {
    var sanitized := Sanitized(name, p);
    var stripped := Strip(sanitized, {'_'});
    StripKeepsChars(sanitized, {'_'});
    forall i | 0 <= i < |stripped| ensures NameChar(stripped[i], p) {
      assert stripped[i] in sanitized;
    }
    PidNameShape(pid, p);
  }

  /** A name that is already clean is kept as it is. */
  lemma CleanNameKeeps(name: string, pid: int, p: Platform)
    requires 0 < |name| <= MaxNameLength && IsMetricName(name, p)
    requires name[0] != '_' && name[|name| - 1] != '_'
    ensures CleanName(name, pid, p) == name
  {
    assert Sanitized(name, p) == name;
    StripNothing(name, {'_'});
  }

  /** Cleaning twice is cleaning once, whatever PID the second call is given. */
  lemma CleanNameIdempotent(name: string, pid: int, other: int, p: Platform)
    ensures CleanName(CleanName(name, pid, p), other, p) == CleanName(name, pid, p)
  {
    CleanNameShape(name, pid, p);
    CleanNameKeeps(CleanName(name, pid, p), other, p);
  }

  /** A name with nothing but `_` and replaced characters falls back to `pid_<pid>`. */
  lemma CleanNameFallsBack(name: string, pid: int, p: Platform)
    requires forall i :: 0 <= i < |name| ==> name[i] == '_' || !NameChar(name[i], p)
    requires |IntToString(pid)| <= MaxNameLength - 4
    ensures CleanName(name, pid, p) == "pid_" + IntToString(pid)
  {
    StripAll(Sanitized(name, p), {'_'});
  }

  /** A longer stripped name keeps its first 30 characters and gains `..`. */
  lemma CleanNameTruncates(name: string, pid: int, p: Platform)
    requires |Strip(Sanitized(name, p), {'_'})| > MaxNameLength
    ensures var r := CleanName(name, pid, p);
      |r| == MaxNameLength && r == Strip(Sanitized(name, p), {'_'})[..30] + ".."
  {
  }

  // ---------------------------------------------------------------------
  // Selection

  /** The processes `procs_data` collects: those read whose `cpu_percent` is not `None`, in listing order. */
  function Eligible(probes: seq<Probe>): (r: seq<ProcInfo>)
    ensures |r| <= |probes|
    ensures forall x :: x in r <==> Read(x) in probes && x.cpu.Some?
    decreases |probes|
  {
    if probes == [] then []
    else
      var front := probes[..|probes| - 1];
      var last := probes[|probes| - 1];
      assert probes == front + [last];
      Eligible(front) + (if last.Read? && last.info.cpu.Some? then [last.info] else [])
  }

  /** The loop over `psutil.pids()`: a process that raises or has no `cpu_percent` is skipped. */
  method Gather(probes: seq<Probe>) returns (procs: seq<ProcInfo>)
    ensures procs == Eligible(probes)
  {
    procs := [];
    var i := 0;
    while i < |probes|
      invariant 0 <= i <= |probes| && procs == Eligible(probes[..i])
    {
      var probe := probes[i];
      if probe.Read? && probe.info.cpu.Some? {
        procs := procs + [probe.info];
      }
      assert probes[..i + 1][..i] == probes[..i];
      i := i + 1;
    }
    assert probes[..i] == probes;
  }

  /** `p_info.get("cpu_percent", 0.0) or 0.0`. */
  function Cpu(x: ProcInfo): real {
    if x.cpu.Some? then x.cpu.value else 0.0
  }

  /** The sort key that puts the busiest first: `reverse=True` keeps ties in their order, as an ascending sort on the negated key does. */
  function Busiest(x: ProcInfo): real {
    -Cpu(x)
  }

  const TopCount := 5

  /** `sorted(procs_data, key=..., reverse=True)[:5]`. */
  function Top(procs: seq<ProcInfo>): seq<ProcInfo> {
    var sorted := SortBy(procs, Busiest);
    sorted[..if |sorted| < TopCount then |sorted| else TopCount]
  }

  /** A list sorted busiest first: earlier positions use at least as much CPU as later ones. */
  lemma BusiestFirst(sorted: seq<ProcInfo>, i: int, j: int)
    requires SortedBy(sorted, Busiest) && 0 <= i <= j < |sorted|
    ensures Cpu(sorted[i]) >= Cpu(sorted[j])
  {
    assert Busiest(sorted[i]) <= Busiest(sorted[j]) || i == j;
  }

  /** In a list sorted busiest first, each of the first `n` uses at least as much CPU as each one after it. */
  lemma PrefixDescending(sorted: seq<ProcInfo>, n: nat)
    requires SortedBy(sorted, Busiest) && n <= |sorted|
    ensures forall i, j :: 0 <= i < j < n ==> Cpu(sorted[..n][i]) >= Cpu(sorted[..n][j])
  {
    forall i, j | 0 <= i < j < n ensures Cpu(sorted[..n][i]) >= Cpu(sorted[..n][j]) {
      BusiestFirst(sorted, i, j);
    }
  }

  /** In a list sorted busiest first, nothing after the first `n` uses more CPU than any of them. */
  lemma RestBelow(sorted: seq<ProcInfo>, n: nat)
    requires SortedBy(sorted, Busiest) && n <= |sorted|
    ensures forall x, y :: x in sorted[n..] && y in sorted[..n] ==> Cpu(x) <= Cpu(y)
  {
    forall x, y | x in sorted[n..] && y in sorted[..n] ensures Cpu(x) <= Cpu(y) {
      var k :| 0 <= k < |sorted| - n && sorted[n..][k] == x;
      var i :| 0 <= i < n && sorted[..n][i] == y;
      BusiestFirst(sorted, i, n + k);
    }
  }

  /** Taking a prefix leaves exactly the suffix's elements behind. */
  lemma PrefixLeaves<T>(s: seq<T>, n: nat)
    requires n <= |s|
    ensures multiset(s[..n]) <= multiset(s)
    ensures multiset(s) - multiset(s[..n]) == multiset(s[n..])
  {
    assert s == s[..n] + s[n..];
  }

  /**
   * The five (or fewer) busiest processes, busiest first: taken from the
   * input, and every process left out uses no more CPU than any chosen.
   */
  lemma TopFive(procs: seq<ProcInfo>)
    ensures var top := Top(procs);
      && |top| == (if |procs| < TopCount then |procs| else TopCount)
      && (forall i, j :: 0 <= i < j < |top| ==> Cpu(top[i]) >= Cpu(top[j]))
      && multiset(top) <= multiset(procs)
      && forall x, y :: x in multiset(procs) - multiset(top) && y in top ==> Cpu(x) <= Cpu(y)
  {
    var sorted := SortBy(procs, Busiest);
    SortBySorted(procs, Busiest);
    SortByPermutes(procs, Busiest);
    var n := if |sorted| < TopCount then |sorted| else TopCount;
    PrefixDescending(sorted, n);
    RestBelow(sorted, n);
    PrefixLeaves(sorted, n);
  }

  /** A process with the same CPU as another keeps its place relative to it: ties stay in listing order. */
  lemma TopKeepsTies(procs: seq<ProcInfo>, k: real)
    ensures WithKey(SortBy(procs, Busiest), Busiest, k) == WithKey(procs, Busiest, k)
  {
    SortByStable(procs, Busiest, k);
  }

  // ---------------------------------------------------------------------
  // Metrics

  /** `top_cpu.<name>.pid_<pid>.cpu_percent`. */
  function CpuMetric(x: ProcInfo, p: Platform): Metric
    requires x.name.Some? && x.cpu.Some?
  {
    ("top_cpu." + CleanName(x.name.value, x.pid, p) + ".pid_" + IntToString(x.pid) + ".cpu_percent", x.cpu.value)
  }

  /** `top_mem.<name>.pid_<pid>.mem_percent`. */
  function MemMetric(x: ProcInfo, p: Platform): Metric
    requires x.name.Some? && x.mem.Some?
  {
    ("top_mem." + CleanName(x.name.value, x.pid, p) + ".pid_" + IntToString(x.pid) + ".mem_percent", x.mem.value)
  }

  /** The metrics of one process: its CPU, then its memory, each when not `None`. */
  function ProcessMetrics(x: ProcInfo, p: Platform): (r: seq<Metric>)
    requires x.name.Some?
    ensures |r| <= 2
  {
    (if x.cpu.Some? then [CpuMetric(x, p)] else []) + (if x.mem.Some? then [MemMetric(x, p)] else [])
  }

  /**
   * The metrics of the chosen processes, in order; `None` when one of them
   * has no name, since iterating over `None` raises `TypeError`.
   */
  function MetricsOf(top: seq<ProcInfo>, p: Platform): (r: Option<seq<Metric>>)
    ensures r.Some? <==> forall i :: 0 <= i < |top| ==> top[i].name.Some?
    ensures r.Some? ==> |r.value| <= 2 * |top|
    decreases |top|
  {
    if top == [] then Some([])
    else
      var last := top[|top| - 1];
      match MetricsOf(top[..|top| - 1], p)
      case None => None
      case Some(ms) =>
        if last.name.None? then None else Some(ms + ProcessMetrics(last, p))
  }

  /** Every metric of a chosen process is among the metrics of the whole list. */
  lemma {:induction false} MetricsOfHas(top: seq<ProcInfo>, p: Platform, i: nat, m: Metric)
    requires MetricsOf(top, p).Some? && i < |top| && top[i].name.Some? && m in ProcessMetrics(top[i], p)
    ensures m in MetricsOf(top, p).value
    decreases |top|
  {
    var front := top[..|top| - 1];
    var ms := MetricsOf(front, p).value;
    assert MetricsOf(top, p).value == ms + ProcessMetrics(top[|top| - 1], p);
    if i < |front| {
      assert front[i] == top[i];
      MetricsOfHas(front, p, i, m);
    }
  }

  /** The loop over the top five, appending each process's metrics. */
  method Emit(top: seq<ProcInfo>, p: Platform) returns (r: Option<seq<Metric>>)
    ensures r == MetricsOf(top, p)
  {
    var metrics: seq<Metric> := [];
    var i := 0;
    while i < |top|
      invariant 0 <= i <= |top| && MetricsOf(top[..i], p) == Some(metrics)
    {
      var x := top[i];
      assert top[..i + 1][..i] == top[..i];
      if x.name.None? {
        assert MetricsOf(top[..i + 1], p).None?;
        MissingNameStays(top, i + 1, p);
        return None;
      }
      var before := metrics;
      if x.cpu.Some? {
        metrics := metrics + [CpuMetric(x, p)];
      }
      if x.mem.Some? {
        metrics := metrics + [MemMetric(x, p)];
      }
      assert metrics == before + ProcessMetrics(x, p) by {
        if x.cpu.Some? && x.mem.Some? {
          Associative(before, [CpuMetric(x, p)], [MemMetric(x, p)]);
        }
      }
      i := i + 1;
    }
    assert top[..i] == top;
    return Some(metrics);
  }

  /** Once a prefix has a process without a name, so does the whole list. */
  lemma MissingNameStays(top: seq<ProcInfo>, n: nat, p: Platform)
    requires n <= |top| && MetricsOf(top[..n], p).None?
    ensures MetricsOf(top, p).None?
  {
    var i :| 0 <= i < n && top[..n][i].name.None?;
    assert top[i].name.None?;
  }

  /** What `collect` returns: `[]` when listing the PIDs or naming a chosen process raised. */
  function Collected(listing: Option<seq<Probe>>, p: Platform): seq<Metric> {
    if listing.None? then []
    else
      match MetricsOf(Top(Eligible(listing.value)), p)
      case None => []
      case Some(ms) => ms
  }

  /** `collect`: gather, sort, take five, emit; any exception on the way gives `[]`. */
  method Collect(listing: Option<seq<Probe>>, p: Platform) returns (metrics: seq<Metric>)
    ensures metrics == Collected(listing, p)
  {
    if listing.None? {
      return [];
    }
    var procs := Gather(listing.value);
    var sorted := SortBy(procs, Busiest);
    var top := sorted[..if |sorted| < TopCount then |sorted| else TopCount];
    var emitted := Emit(top, p);
    if emitted.None? {
      return [];
    }
    return emitted.value;
  }

  /** At most five processes, two metrics each. */
  lemma CollectedAtMostTen(listing: Option<seq<Probe>>, p: Platform)
    ensures |Collected(listing, p)| <= 2 * TopCount
  {
    if listing.Some? {
      TopFive(Eligible(listing.value));
    }
  }

  /** Every chosen process has a `cpu_percent`: the ones without were never gathered. */
  lemma TopHaveCpu(listing: seq<Probe>)
    ensures var top := Top(Eligible(listing));
      forall i :: 0 <= i < |top| ==> top[i].cpu.Some?
  {
    var procs := Eligible(listing);
    var top := Top(procs);
    TopFive(procs);
    forall i | 0 <= i < |top| ensures top[i].cpu.Some? {
      assert top[i] in multiset(procs);
    }
  }

  /**
   * Each chosen process yields its `top_cpu` metric, all of them having a
   * `cpu_percent`; and one chosen process without a name empties the
   * whole result.
   */
  lemma CollectedCoversTop(listing: seq<Probe>, p: Platform)
    ensures var top := Top(Eligible(listing));
      if forall i :: 0 <= i < |top| ==> top[i].name.Some? then
        forall i :: 0 <= i < |top| ==> top[i].cpu.Some? && CpuMetric(top[i], p) in Collected(Some(listing), p)
      else
        Collected(Some(listing), p) == []
  {
    var top := Top(Eligible(listing));
    TopHaveCpu(listing);
    if forall i :: 0 <= i < |top| ==> top[i].name.Some? {
      forall i | 0 <= i < |top| ensures CpuMetric(top[i], p) in Collected(Some(listing), p) {
        MetricsOfHas(top, p, i, CpuMetric(top[i], p));
      }
    }
  }
}
