/** Day 6, "Tuning Trouble": the start-of-message marker in a datastream is the
    first run of 14 consecutive characters that are all different. */
module TuningTrouble {

  /** The number of characters in a start-of-message marker. */
  const MarkerLength: nat := 14

  predicate AllDistinct(s: seq<char>) {
    forall i, j | 0 <= i < j < |s| :: s[i] != s[j]
  }

  /** The window of `MarkerLength` characters starting at `c` exists and is a marker. */
  predicate IsMarkerAt(stream: seq<char>, c: nat) {
    c + MarkerLength <= |stream| && AllDistinct(stream[c..c + MarkerLength])
  }

  function Elements(s: seq<char>): set<char> {
    set x | x in s
  }

  lemma {:induction false} ElementsBound(s: seq<char>)
    ensures |Elements(s)| <= |s|
  {
    if s != [] {
      ElementsBound(s[1..]);
      assert Elements(s) == {s[0]} + Elements(s[1..]);
    }
  }

  /** Collecting a window into a set keeps all of its characters exactly when
      they are pairwise distinct, so the program's set-size test is the
      distinctness test. */
  lemma {:induction false} DistinctIffFullSet(s: seq<char>)
    ensures |Elements(s)| == |s| <==> AllDistinct(s)
  {
    if s != [] {
      DistinctIffFullSet(s[1..]);
      ElementsBound(s[1..]);
      assert Elements(s) == {s[0]} + Elements(s[1..]);
      if s[0] in s[1..] {
        var j :| 1 <= j < |s| && s[j] == s[0];
        assert !AllDistinct(s);
      } else {
        assert AllDistinct(s) <==> AllDistinct(s[1..]) by {
          if AllDistinct(s[1..]) {
            forall i, j | 0 <= i < j < |s| ensures s[i] != s[j] {
              if i > 0 {
                assert s[i] == s[1..][i - 1] && s[j] == s[1..][j - 1];
              }
            }
          }
          if AllDistinct(s) {
            forall i, j | 0 <= i < j < |s| - 1 ensures s[1..][i] != s[1..][j] {
              assert s[1..][i] == s[i + 1] && s[1..][j] == s[j + 1];
            }
          }
        }
      }
    }
  }

  /** `find_marker`: the position just after the first marker. The program
      indexes past the end of the stream when there is no marker, so a marker
      must exist. */
  method FindMarker(stream: seq<char>) returns (marker: nat)
    requires exists c: nat :: IsMarkerAt(stream, c)
    ensures MarkerLength <= marker <= |stream|
    ensures IsMarkerAt(stream, marker - MarkerLength)
    ensures forall c: nat | c < marker - MarkerLength :: !IsMarkerAt(stream, c)
  {
    var counter: nat := 0;
    while true
      invariant forall c: nat | c < counter :: !IsMarkerAt(stream, c)
      invariant exists c: nat :: counter <= c && IsMarkerAt(stream, c)
      decreases |stream| - counter
    {
      var candidate := stream[counter..counter + MarkerLength];
      var uniques := set x | x in candidate;
      DistinctIffFullSet(candidate);
      if |uniques| == MarkerLength {
        marker := counter + MarkerLength;
        return;
      }
      counter := counter + 1;
    }
  }
}
