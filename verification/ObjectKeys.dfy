/** The keys under which workers store their files. */
module ObjectKeys {
  import opened DecimalText

  /** Decimal digits, padded with zeros to a width. */
  function Padded(n: nat, width: nat): (s: string)
    ensures '/' !in s
  {
    var d := Digits(n);
    seq(if width > |d| then width - |d| else 0, _ => '0') + d
  }

  function WithoutSlash(prefix: string): string {
    if prefix != "" && prefix[|prefix| - 1] == '/' then prefix[..|prefix| - 1] else prefix
  }

  /** The prefix of a run, for a data set prefix without outer white space. */
  function RunPrefix(dataset: string, run: string): string { WithoutSlash(dataset) + "/_runs/run-" + run }

  function PartName(part: nat, file: nat): (s: string)
    ensures '/' !in s
  {
    "part-" + Padded(part, 6) + "-" + Padded(file, 3) + ".parquet"
  }

  function ObjectKey(dataset: string, run: string, part: nat, file: nat): string {
    RunPrefix(dataset, run) + "/" + PartName(part, file)
  }

  /** The last slash splits a text in one way only. */
  lemma SplitAtLastSlash(a: string, x: string, b: string, y: string)
    requires '/' !in x && '/' !in y && a + "/" + x == b + "/" + y
    ensures a == b && x == y
  {
    var s := a + "/" + x;
    assert s[|a|] == '/' && s[|b|] == '/';
    assert forall k | |a| < k < |s| :: s[k] == x[k - |a| - 1];
    assert forall k | |b| < k < |s| :: s[k] == y[k - |b| - 1];
    assert |a| == |b|;
    assert s[..|a|] == a && s[..|b|] == b;
    assert s[|a| + 1..] == x && s[|b| + 1..] == y;
  }

  /** A key names the run it was written for: keys of different runs differ, whatever the data set, part and file. */
  lemma KeyNamesRun(dataset: string, run: string, part: nat, file: nat, dataset': string, run': string,
      part': nat, file': nat)
    requires '/' !in run && '/' !in run'
    requires ObjectKey(dataset, run, part, file) == ObjectKey(dataset', run', part', file')
    ensures run == run'
  {
    hide PartName, RunPrefix;
    SplitAtLastSlash(RunPrefix(dataset, run), PartName(part, file), RunPrefix(dataset', run'), PartName(part', file'));
    PrefixNamesRun(dataset, run, dataset', run');
  }

  lemma PrefixNamesRun(dataset: string, run: string, dataset': string, run': string)
    requires '/' !in run && '/' !in run' && RunPrefix(dataset, run) == RunPrefix(dataset', run')
    ensures run == run'
  {
    hide WithoutSlash;
    var p, p' := WithoutSlash(dataset) + "/_runs", WithoutSlash(dataset') + "/_runs";
    assert RunPrefix(dataset, run) == p + "/" + ("run-" + run);
    assert RunPrefix(dataset', run') == p' + "/" + ("run-" + run');
    SplitAtLastSlash(p, "run-" + run, p', "run-" + run');
    assert ("run-" + run)[4..] == run && ("run-" + run')[4..] == run';
  }
}
