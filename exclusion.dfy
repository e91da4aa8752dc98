/**
 * The exclusion filter (duld/drive.py, `_should_exclude`).
 *
 * Regular-expression matching is foreign to the model: a `Matcher` says whether a
 * pattern matches a name (in the source, a case-insensitive `re.match`). The pattern
 * list served at `exclude_url` is an input: `remotePatterns` is `None` when no URL is
 * configured and otherwise the pattern values of the JSON mapping it serves, in order.
 */
module Exclusion {
  import opened Wrappers

  /** `matches(pattern, name)`: the pattern matches a prefix of the name. */
  type Matcher = (string, string) -> bool

  datatype Filter = Filter(excludePattern: seq<string>, remotePatterns: Option<seq<string>>, matches: Matcher)

  /** The verdict, and whether the remote pattern list had to be fetched to reach it. */
  datatype Decision = Decision(excluded: bool, fetched: bool)

  /** The search of one pattern list, stopping at the first pattern that matches. */
  function AnyMatch(matches: Matcher, patterns: seq<string>, name: string): (b: bool)
    ensures b <==> exists i :: 0 <= i < |patterns| && matches(patterns[i], name)
  {
    if patterns == [] then false
    else if matches(patterns[0], name) then true
    else
      var b := AnyMatch(matches, patterns[1..], name);
      assert b ==> exists i :: 1 <= i < |patterns| && matches(patterns[i], name) by {
        if b {
          var k :| 0 <= k < |patterns| - 1 && matches(patterns[1..][k], name);
          assert matches(patterns[k + 1], name);
        }
      }
      b
  }

  /**
   * The static patterns are tried first; only when none of them matches is the
   * remote list fetched (if a URL is configured) and searched.
   */
  function ShouldExclude(f: Filter, name: string): (d: Decision)
    ensures d.excluded <==>
      (exists i :: 0 <= i < |f.excludePattern| && f.matches(f.excludePattern[i], name)) ||
      (f.remotePatterns.Some? &&
       exists j :: 0 <= j < |f.remotePatterns.value| && f.matches(f.remotePatterns.value[j], name))
    ensures d.fetched <==>
      f.remotePatterns.Some? && forall i :: 0 <= i < |f.excludePattern| ==> !f.matches(f.excludePattern[i], name)
  {
    if AnyMatch(f.matches, f.excludePattern, name) then Decision(true, false)
    else if f.remotePatterns.None? then Decision(false, false)
    else Decision(AnyMatch(f.matches, f.remotePatterns.value, name), true)
  }
}
