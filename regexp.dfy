/** The part of Go's regexp package the exporter relies on, taken as given:
    a compiled pattern is its list of subexpression names together with the
    result of FindStringSubmatch on every text. The matching engine itself is
    not modelled. */
module Regexp {
  import opened GoStrings

  /** A compiled pattern. `names[0]` is the whole match (always unnamed) and
      `names[i]` the name of group i ("" when unnamed); `find(t)` is
      FindStringSubmatch(t): None for no match, otherwise the whole match and
      one string per group. */
  datatype Pattern = Pattern(names: seq<Str>, find: Str -> Option<seq<Str>>)

  /** What Go guarantees of every compiled pattern: group 0 is unnamed and a
      match has one entry per subexpression. */
  ghost predicate WellFormed(p: Pattern)
  {
    && |p.names| >= 1
    && p.names[0] == []
    && forall t :: p.find(t).Some? ==> |p.find(t).value| == |p.names|
  }

  type Regex = p: Pattern | WellFormed(p) witness Pattern([[]], t => None)

  /** Regexp.SubexpIndex: the index of the first group called `name`, or -1
      when there is none; the empty name is never found. */
  function SubexpIndex(re: Regex, name: Str): (i: int)
    ensures -1 <= i < |re.names|
    ensures i >= 0 ==> name != [] && re.names[i] == name
    ensures i >= 0 ==> forall j :: 0 <= j < i ==> re.names[j] != name
    ensures i == -1 <==> name == [] || name !in re.names
  {
    if name == [] then -1 else FirstIndex(re.names, name, 0)
  }

  /** The first index at or after `from` holding `x`, or -1. */
  function FirstIndex(s: seq<Str>, x: Str, from: nat): (i: int)
    requires from <= |s|
    ensures -1 <= i < |s|
    ensures i >= 0 ==> from <= i && s[i] == x && forall j :: from <= j < i ==> s[j] != x
    ensures i == -1 <==> x !in s[from..]
    decreases |s| - from
  {
    if from == |s| then -1
    else if s[from] == x then from
    else
      var i := FirstIndex(s, x, from + 1);
      assert s[from..] == [s[from]] + s[from + 1..];
      i
  }
}
