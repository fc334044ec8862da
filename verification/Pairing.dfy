/** Choosing this pod's traffic pairs from the lines of the pairing file: lines are
    filtered, grouped by their source, and one of each group is picked. */
module Pairing {

  datatype SourceKind = Pod | Deployment | DaemonSet | Unsupported

  datatype Source = Source(kind: SourceKind, namespace: string, name: string)

  datatype BatPair = BatPair(source: Source, destination: string, profile: string, scenario: string)

  /** A line after parsing; blank lines, comments and unreadable sources are skipped. */
  datatype Line = Skipped | Line(sourceText: string, pair: BatPair)

  /** Does the line concern this pod? */
  predicate Selected(line: Line, namespace: string, podName: string) {
    && line.Line?
    && line.pair.source.namespace == namespace
    && match line.pair.source.kind
       case Pod => line.pair.source.name == podName
       case Deployment => line.pair.source.name <= podName
       case DaemonSet => line.pair.source.name <= podName
       case Unsupported => false
  }

  /** A line for a pod concerns the pod of that name; a line for a deployment or a
      daemon set concerns every pod whose name is that name with a suffix; no line
      concerns a pod of another namespace, or one whose name does not begin with the
      name it gives. */
  lemma SelectionByName(line: Line, namespace: string, suffix: string, other: string)
    requires line.Line?
    ensures var source := line.pair.source;
            && (Selected(line, namespace, other) ==> source.namespace == namespace)
            && (source.namespace == namespace ==>
                  (Selected(line, namespace, source.name + suffix) <==>
                  source.kind in {Deployment, DaemonSet} || (source.kind == Pod && suffix == "")))
            && (Selected(line, namespace, other) ==> exists s :: other == source.name + s)
  {
    var name := line.pair.source.name;
    if suffix == "" {
      assert name + suffix == name;
    } else {
      assert |name + suffix| != |name|;
    }
    if Selected(line, namespace, other) {
      assert other == name + other[|name|..];
    }
  }

  /** The pairs of the selected lines with a given source text, in file order. */
  function Group(lines: seq<Line>, namespace: string, podName: string, key: string): seq<BatPair> {
    if lines == [] then []
    else
      var last := lines[|lines| - 1];
      Group(lines[..|lines| - 1], namespace, podName, key) +
      if Selected(last, namespace, podName) && last.sourceText == key then [last.pair] else []
  }

  /** The source texts of the selected lines. */
  function Sources(lines: seq<Line>, namespace: string, podName: string): set<string> {
    set line | line in lines && Selected(line, namespace, podName) :: line.sourceText
  }

  /** A group holds exactly the pairs of the selected lines with its source, and is
      not empty for a source that occurs. */
  lemma {:induction false} GroupMembers(lines: seq<Line>, namespace: string, podName: string, key: string)
    ensures forall p :: p in Group(lines, namespace, podName, key) <==>
              exists line :: line in lines && Selected(line, namespace, podName)
                             && line.sourceText == key && line.pair == p
    ensures Group(lines, namespace, podName, key) != [] <==> key in Sources(lines, namespace, podName)
  {
    if lines != [] {
      var k := |lines| - 1;
      GroupMembers(lines[..k], namespace, podName, key);
      assert forall line :: line in lines <==> line in lines[..k] || line == lines[k];
    }
  }

  /** A source of randomness: an index below n for every group of n. */
  ghost predicate InRange(pick: (string, nat) -> nat) {
    forall key: string, n: nat :: n > 0 ==> pick(key, n) < n
  }

  /** What is picked from a group. */
  function Choice(group: seq<BatPair>, key: string, pick: (string, nat) -> nat): BatPair
    requires group != [] && (|group| > 1 ==> pick(key, |group|) < |group|)
  {
    if |group| == 1 then group[0] else group[pick(key, |group|)]
  }

  /** One more line: its pair joins its group, and the other groups stay. */
  lemma OneMoreLine(lines: seq<Line>, line: Line, namespace: string, podName: string, key: string)
    ensures Group(lines + [line], namespace, podName, key) ==
            Group(lines, namespace, podName, key) +
            if Selected(line, namespace, podName) && line.sourceText == key then [line.pair] else []
  {
    assert (lines + [line])[..|lines|] == lines;
  }

  lemma OneMoreSource(lines: seq<Line>, line: Line, namespace: string, podName: string)
    ensures Sources(lines + [line], namespace, podName) ==
            Sources(lines, namespace, podName) + if Selected(line, namespace, podName) then {line.sourceText} else {}
  {
    assert forall x :: x in lines + [line] <==> x in lines || x == line;
  }

  /** First loop: group the pairs of the selected lines by source. */
  method GroupBySource(lines: seq<Line>, namespace: string, podName: string)
    returns (pairMap: map<string, seq<BatPair>>)
    ensures pairMap.Keys == Sources(lines, namespace, podName)
    ensures forall key :: key in pairMap ==> pairMap[key] == Group(lines, namespace, podName, key)
  {
    pairMap := map[];
    for i := 0 to |lines|
      invariant pairMap.Keys == Sources(lines[..i], namespace, podName)
      invariant forall key :: key in pairMap ==> pairMap[key] == Group(lines[..i], namespace, podName, key)
    {
      var line := lines[i];
      assert lines[..i + 1] == lines[..i] + [line];
      OneMoreSource(lines[..i], line, namespace, podName);
      forall key
        ensures Group(lines[..i + 1], namespace, podName, key) ==
                Group(lines[..i], namespace, podName, key) +
                if Selected(line, namespace, podName) && line.sourceText == key then [line.pair] else []
      {
        OneMoreLine(lines[..i], line, namespace, podName, key);
      }
      if Selected(line, namespace, podName) {
        GroupMembers(lines[..i], namespace, podName, line.sourceText);
        if line.sourceText in pairMap {
          pairMap := pairMap[line.sourceText := pairMap[line.sourceText] + [line.pair]];
        } else {
          pairMap := pairMap[line.sourceText := [line.pair]];
        }
      }
    }
    assert lines[..|lines|] == lines;
  }

  /** Second loop: one pair of each group, in whatever order the map is walked;
      `keys` says which group each pair stands for. */
  method PickOneEach(pairMap: map<string, seq<BatPair>>, pick: (string, nat) -> nat)
    returns (pairs: seq<BatPair>, ghost keys: seq<string>)
    requires InRange(pick) && forall key :: key in pairMap ==> pairMap[key] != []
    ensures |pairs| == |pairMap.Keys|
    ensures |keys| == |pairs|
    ensures forall i, j :: 0 <= i < j < |keys| ==> keys[i] != keys[j]
    ensures forall key :: key in keys <==> key in pairMap
    ensures forall i :: 0 <= i < |pairs| ==> keys[i] in pairMap && pairs[i] == Choice(pairMap[keys[i]], keys[i], pick)
    ensures forall i :: 0 <= i < |pairs| && |pairMap[keys[i]]| > 1 ==>
              pairs[i] == pairMap[keys[i]][pick(keys[i], |pairMap[keys[i]]|)]
  {
    pairs, keys := [], [];
    var rest := pairMap.Keys;
    while rest != {}
      invariant rest <= pairMap.Keys
      invariant |pairs| == |keys| == |pairMap.Keys| - |rest|
      invariant forall i, j :: 0 <= i < j < |keys| ==> keys[i] != keys[j]
      invariant forall key :: key in keys <==> key in pairMap && key !in rest
      invariant forall i :: 0 <= i < |pairs| ==>
                  keys[i] in pairMap && pairs[i] == Choice(pairMap[keys[i]], keys[i], pick)
      decreases rest
    {
      var key :| key in rest;
      rest := rest - {key};
      var tempPairs := pairMap[key];
      if |tempPairs| == 1 {
        pairs := pairs + [tempPairs[0]];
      } else {
        pairs := pairs + [tempPairs[pick(key, |tempPairs|)]];
      }
      keys := keys + [key];
    }
  }

  /** A pair comes from a selected line with its source. */
  predicate FromLine(lines: seq<Line>, namespace: string, podName: string, key: string, pair: BatPair) {
    exists line :: line in lines && Selected(line, namespace, podName) && line.sourceText == key && line.pair == pair
  }

  /** For any lines and any random choices the result has exactly one pair for each
      distinct source text that passes the filter, taken from a line with that source;
      `keys` says which source each pair stands for. */
  method AvailablePairings(lines: seq<Line>, namespace: string, podName: string, pick: (string, nat) -> nat)
    returns (pairs: seq<BatPair>, ghost keys: seq<string>)
    requires InRange(pick)
    ensures |pairs| == |Sources(lines, namespace, podName)|
    ensures |keys| == |pairs|
    ensures forall i, j :: 0 <= i < j < |keys| ==> keys[i] != keys[j]
    ensures forall key :: key in keys <==> key in Sources(lines, namespace, podName)
    ensures forall i :: 0 <= i < |pairs| ==> FromLine(lines, namespace, podName, keys[i], pairs[i])
  {
    var pairMap := GroupBySource(lines, namespace, podName);
    GroupsNotEmpty(lines, namespace, podName, pairMap);
    pairs, keys := PickOneEach(pairMap, pick);
    PicksFromLines(lines, namespace, podName, pick, pairMap, keys, pairs);
  }

  lemma GroupsNotEmpty(lines: seq<Line>, namespace: string, podName: string, pairMap: map<string, seq<BatPair>>)
    requires pairMap.Keys == Sources(lines, namespace, podName)
    requires forall key :: key in pairMap ==> pairMap[key] == Group(lines, namespace, podName, key)
    ensures forall key :: key in pairMap ==> pairMap[key] != []
  {
    forall key | key in pairMap
      ensures pairMap[key] != []
    {
      GroupMembers(lines, namespace, podName, key);
    }
  }

  lemma PicksFromLines(lines: seq<Line>, namespace: string, podName: string, pick: (string, nat) -> nat,
                       pairMap: map<string, seq<BatPair>>, keys: seq<string>, pairs: seq<BatPair>)
    requires InRange(pick) && |keys| == |pairs|
    requires forall key :: key in pairMap ==> pairMap[key] == Group(lines, namespace, podName, key) != []
    requires forall i :: 0 <= i < |pairs| ==> keys[i] in pairMap && pairs[i] == Choice(pairMap[keys[i]], keys[i], pick)
    ensures forall i :: 0 <= i < |pairs| ==> FromLine(lines, namespace, podName, keys[i], pairs[i])
  {
    forall i | 0 <= i < |pairs|
      ensures FromLine(lines, namespace, podName, keys[i], pairs[i])
    {
      ChoiceFromLine(lines, namespace, podName, keys[i], pick);
    }
  }

  lemma ChoiceFromLine(lines: seq<Line>, namespace: string, podName: string, key: string, pick: (string, nat) -> nat)
    requires InRange(pick) && Group(lines, namespace, podName, key) != []
    ensures FromLine(lines, namespace, podName, key, Choice(Group(lines, namespace, podName, key), key, pick))
  {
    GroupMembers(lines, namespace, podName, key);
    assert Choice(Group(lines, namespace, podName, key), key, pick) in Group(lines, namespace, podName, key);
  }
}
