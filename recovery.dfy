/**
  The checkpoint recovery tool (backend/app/recovery_tool.py): the number a
  checkpoint file name carries, the last processed index over the names
  `glob` found, and the checkpoint `recovery_from_checkpoint` picks. The
  directory listing is passed in as the sequence of names; reading and
  writing the CSV files is not modelled.
*/
module Recovery {
  import opened Wrappers
  import opened StrUtil

  // ---------------------------------------------------------------------
  // The number in a name

  function SignedValue(negative: bool, d: string): int
    requires AllDigits(d)
  {
    if negative then -(DigitsValue(d) as int) else DigitsValue(d) as int
  }

  /** Python's `int(text)` on a text without `_`: surrounding whitespace, an optional sign, then one
      or more ASCII digits; `None` is the `ValueError`. */
  function PyInt(text: string): (r: Option<int>)
    ensures r.Some? ==> Strip(text) != ""
  {
    var t := Strip(text);
    if |t| > 0 && (t[0] == '+' || t[0] == '-') then
      var d := t[1..];
      if d != "" && AllDigits(d) then Some(SignedValue(t[0] == '-', d)) else None
    else if t != "" && AllDigits(t) then Some(DigitsValue(t))
    else None
  }

  /** `int(x.split('_')[-1].split('.')[0])`, the sort key of recovery_from_checkpoint and the number
      get_last_processed_index collects. */
  function CheckpointNumber(name: string): Option<int>
  {
    PyInt(BeforeFirst(AfterLast(name, '_'), '.'))
  }

  /** The name safe_feature_extraction writes after the batch ending at `n`. */
  function CheckpointName(n: nat): string
  {
    "checkpoint_features_" + DecimalString(n) + ".csv"
  }

  lemma AfterLastOf(p: string, t: string, c: char)
    requires |p| > 0 && p[|p| - 1] == c && c !in t
    ensures AfterLast(p + t, c) == t
  {
    var s := p + t;
    var k := |p| - 1;
    assert s[k] == c;
    assert s[k + 1..] == t;
    LastIndexOfIs(s, c, k);
  }

  lemma BeforeFirstOf(d: string, t: string, c: char)
    requires c !in d && |t| > 0 && t[0] == c
    ensures BeforeFirst(d + t, c) == d
  {
    var s := d + t;
    assert s[|d|] == c;
    assert s[..|d|] == d;
    IndexOfIs(s, c, |d|);
  }

  lemma PyIntOfDigits(d: string)
    requires d != "" && AllDigits(d)
    ensures PyInt(d) == Some(DigitsValue(d))
  {
    assert Trimmed(d);
    StripTrimmed(d);
  }

  /** The numbers the runner writes into its checkpoint names are read back unchanged. */
  lemma CheckpointNameRoundTrip(n: nat)
    ensures CheckpointNumber(CheckpointName(n)) == Some(n)
  {
    var d := DecimalString(n);
    var p := "checkpoint_features_";
    assert CheckpointName(n) == p + (d + ".csv");
    assert '_' !in d + ".csv" by {
      assert forall i :: 0 <= i < |d| ==> IsDigit(d[i]);
    }
    AfterLastOf(p, d + ".csv", '_');
    assert '.' !in d by {
      assert forall i :: 0 <= i < |d| ==> IsDigit(d[i]);
    }
    BeforeFirstOf(d, ".csv", '.');
    PyIntOfDigits(d);
    DecimalRoundTrip(n);
  }

  // ---------------------------------------------------------------------
  // get_last_processed_index

  /** The number of every name, `None` where `int()` raises. */
  function Numbers(names: seq<string>): (r: seq<Option<int>>)
    ensures |r| == |names| && forall i :: 0 <= i < |names| ==> r[i] == CheckpointNumber(names[i])
  {
    seq(|names|, i requires 0 <= i < |names| => CheckpointNumber(names[i]))
  }

  /** The numbers that parse, in order. */
  function Parsed(keys: seq<Option<int>>): (r: seq<int>)
    ensures forall n :: n in r <==> Some(n) in keys
  {
    if |keys| == 0 then []
    else
      var front := Parsed(keys[..|keys| - 1]);
      assert keys == keys[..|keys| - 1] + [keys[|keys| - 1]];
      match keys[|keys| - 1]
      case Some(n) => front + [n]
      case None => front
  }

  /** Python's `max(numbers)` */
  function Max(s: seq<int>): (m: int)
    requires |s| > 0
    ensures m in s && forall i :: 0 <= i < |s| ==> s[i] <= m
  {
    if |s| == 1 then s[0]
    else
      var m := Max(s[1..]);
      assert forall i :: 1 <= i < |s| ==> s[i] == s[1..][i - 1];
      if s[0] > m then s[0] else m
  }

  /** What get_last_processed_index reports: the greatest number among the names that parse, or 0
      when there are none. */
  function LastProcessed(names: seq<string>): int
  {
    var numbers := Parsed(Numbers(names));
    if |numbers| == 0 then 0 else Max(numbers)
  }

  /** `get_last_processed_index()` over the names glob found. */
  method GetLastProcessedIndex(names: seq<string>) returns (r: int)
    ensures r == LastProcessed(names)
  {
    if |names| == 0 {
      return 0;
    }
    ghost var keys := Numbers(names);
    var numbers: seq<int> := [];
    for k := 0 to |names|
      invariant numbers == Parsed(keys[..k])
    {
      assert keys[..k + 1][..k] == keys[..k];
      match CheckpointNumber(names[k]) {
        case Some(n) => numbers := numbers + [n];
        case None =>
      }
    }
    assert keys[..|names|] == keys;
    if |numbers| > 0 {
      r := Max(numbers);
    } else {
      r := 0;
    }
  }

  /** The index is 0 when no name parses; otherwise it is the number of some name, and no name
      carries a greater one. A name that does not parse is skipped. */
  lemma LastProcessedIsGreatest(names: seq<string>)
    ensures var keys := Numbers(names);
      ((forall i :: 0 <= i < |keys| ==> keys[i].None?) ==> LastProcessed(names) == 0)
      && ((exists i :: 0 <= i < |keys| && keys[i].Some?) ==>
        Some(LastProcessed(names)) in keys
        && forall i :: 0 <= i < |keys| && keys[i].Some? ==> keys[i].value <= LastProcessed(names))
  {
    GreatestParsed(Numbers(names));
  }

  lemma GreatestParsed(keys: seq<Option<int>>)
    ensures (forall i :: 0 <= i < |keys| ==> keys[i].None?) <==> |Parsed(keys)| == 0
    ensures |Parsed(keys)| > 0 ==>
      Some(Max(Parsed(keys))) in keys
      && forall i :: 0 <= i < |keys| && keys[i].Some? ==> keys[i].value <= Max(Parsed(keys))
  {
    var numbers := Parsed(keys);
    forall i | 0 <= i < |keys| && keys[i].Some?
      ensures keys[i].value in numbers
    {
      assert keys[i] == Some(keys[i].value);
    }
    if |numbers| > 0 {
      var m := Max(numbers);
      assert Some(m) in keys;
      assert numbers[0] in numbers;
    }
  }

  // ---------------------------------------------------------------------
  // recovery_from_checkpoint

  /** What recovery_from_checkpoint ends in: `None` for no files, the file it reads, or the
      `ValueError` the sort key raises. */
  datatype RecoveryOutcome = NoCheckpoints | Recovered(name: string) | SortKeyFailed

  predicate AllParse(names: seq<string>)
  {
    forall i :: 0 <= i < |names| ==> CheckpointNumber(names[i]).Some?
  }

  /** The index of the key a stable ascending sort leaves last: the last one attaining the
      greatest key. */
  function LastOfSorted(keys: seq<int>): (j: nat)
    requires |keys| > 0
    ensures j < |keys|
    ensures forall i :: 0 <= i < |keys| ==> keys[i] <= keys[j]
    ensures forall i :: j < i < |keys| ==> keys[i] < keys[j]
  {
    if |keys| == 1 then 0
    else
      var k := LastOfSorted(keys[..|keys| - 1]);
      assert forall i :: 0 <= i < |keys| - 1 ==> keys[..|keys| - 1][i] == keys[i];
      if keys[|keys| - 1] >= keys[k] then |keys| - 1 else k
  }

  /** The sort keys of names that all parse. */
  function SortKeys(names: seq<string>): (r: seq<int>)
    requires AllParse(names)
    ensures |r| == |names| && forall i :: 0 <= i < |names| ==> Some(r[i]) == CheckpointNumber(names[i])
  {
    seq(|names|, i requires 0 <= i < |names| && AllParse(names) => CheckpointNumber(names[i]).value)
  }

  /** `recovery_from_checkpoint()`: which checkpoint it recovers. */
  function RecoverFromCheckpoint(names: seq<string>): (r: RecoveryOutcome)
    ensures r == NoCheckpoints <==> |names| == 0
    ensures r == SortKeyFailed <==> |names| > 0 && !AllParse(names)
    ensures r.Recovered? ==> r.name in names
  {
    if |names| == 0 then NoCheckpoints
    else if !AllParse(names) then SortKeyFailed
    else Recovered(names[LastOfSorted(SortKeys(names))])
  }

  /** The recovered checkpoint is what sorting by number and taking the last name gives: no name
      carries a greater number, and every later name a smaller one. */
  lemma RecoveredIsLastSorted(names: seq<string>)
    requires |names| > 0 && AllParse(names)
    ensures var j := LastOfSorted(SortKeys(names));
      var top := CheckpointNumber(names[j]).value;
      RecoverFromCheckpoint(names) == Recovered(names[j])
      && (forall i :: 0 <= i < |names| ==> CheckpointNumber(names[i]).value <= top)
      && (forall i :: j < i < |names| ==> CheckpointNumber(names[i]).value < top)
  {
    var keys := SortKeys(names);
    var j := LastOfSorted(keys);
    assert forall i :: 0 <= i < |names| ==> CheckpointNumber(names[i]).value == keys[i];
  }

  /** When every name parses, the recovered checkpoint carries the number the index query reports. */
  lemma RecoveryAgreesWithIndex(names: seq<string>)
    requires |names| > 0 && AllParse(names)
    ensures RecoverFromCheckpoint(names).Recovered?
    ensures CheckpointNumber(RecoverFromCheckpoint(names).name) == Some(LastProcessed(names))
  {
    var ints := SortKeys(names);
    SortedLastIsMax(Numbers(names), ints);
  }

  lemma SortedLastIsMax(keys: seq<Option<int>>, ints: seq<int>)
    requires |ints| == |keys| > 0 && forall i :: 0 <= i < |keys| ==> keys[i] == Some(ints[i])
    ensures |Parsed(keys)| > 0 && ints[LastOfSorted(ints)] == Max(Parsed(keys))
  {
    GreatestParsed(keys);
    assert keys[0].Some?;
    var j := LastOfSorted(ints);
    var m := Max(Parsed(keys));
    var i :| 0 <= i < |keys| && keys[i] == Some(m);
    assert ints[i] <= ints[j];
    assert ints[j] <= m;
  }

  /** One name without a number makes recovery fail, while the index query skips it. */
  lemma UnparseableNameDivergence(names: seq<string>, bad: string)
    requires CheckpointNumber(bad).None?
    ensures RecoverFromCheckpoint(names + [bad]) == SortKeyFailed
    ensures LastProcessed(names + [bad]) == LastProcessed(names)
  {
    var all := names + [bad];
    assert !AllParse(all) by {
      assert CheckpointNumber(all[|names|]).None?;
    }
    assert Numbers(all) == Numbers(names) + [None];
  }
}
