/** Build steps of a ninja log (tools/report_build_time_ninja.py, `Target`). */
module NinjaTarget {

  class Target {
    const start: real
    const end: real
    var targets: seq<string>
    var weightedDuration: real

    constructor (start: real, end: real)
      ensures this.start == start && this.end == end
      ensures targets == [] && weightedDuration == 0.0
    {
      this.start := start;
      this.end := end;
      this.targets := [];
      this.weightedDuration := 0.0;
    }

    function Duration(): real {
      end - start
    }
  }

  ghost predicate Distinct<T>(s: seq<T>) {
    forall i, j :: 0 <= i < j < |s| ==> s[i] != s[j]
  }
}
