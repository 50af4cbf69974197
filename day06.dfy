/** Day 6: the start-of-packet marker, the end of the first run of `n` pairwise distinct bytes. */
module Day06 {
  import opened Util

  /** No value occurs twice in `w`. */
  ghost predicate Distinct<T>(w: seq<T>)
  {
    forall i, j | 0 <= i < j < |w| :: w[i] != w[j]
  }

  /** The values of `w`, as the `unique` set collects them. */
  function Elements<T>(w: seq<T>): set<T>
  {
    set x | x in w
  }

  /** `k` bytes have been read and the last `n` of them are pairwise distinct. */
  ghost predicate IsMarker<T>(s: seq<T>, n: nat, k: nat)
  {
    n <= k <= |s| && forall i, j | k - n <= i < j < k :: s[i] != s[j]
  }

  /** The same, of the window as a sequence of its own. */
  lemma MarkerSlice<T>(s: seq<T>, n: nat, k: nat)
    requires n <= k <= |s|
    ensures IsMarker(s, n, k) <==> Distinct(s[k - n..k])
  {
    var w := s[k - n..k];
    if Distinct(w) {
      forall i, j | k - n <= i < j < k ensures s[i] != s[j] {
        assert s[i] == w[i - (k - n)] && s[j] == w[j - (k - n)];
      }
    }
  }

  /** What `find_marker(n, s)` returns: the least `k` that is a marker, or `None` if there is none. */
  ghost predicate FirstMarkerIs<T>(s: seq<T>, n: nat, r: Option<nat>)
  {
    match r
    case None => forall k | 0 <= k <= |s| :: !IsMarker(s, n, k)
    case Some(k) => IsMarker(s, n, k) && forall j | 0 <= j < k :: !IsMarker(s, n, j)
  }

  /** At most one answer meets that description. */
  lemma FirstMarkerUnique<T>(s: seq<T>, n: nat, r1: Option<nat>, r2: Option<nat>)
    requires FirstMarkerIs(s, n, r1) && FirstMarkerIs(s, n, r2)
    ensures r1 == r2
  {
  }

  /** A window grows by one byte without a repeat exactly when the byte is new to it. */
  lemma DistinctSnoc<T>(w: seq<T>, b: T)
    ensures Distinct(w + [b]) <==> Distinct(w) && b !in w
  {
    var v := w + [b];
    if Distinct(v) {
      forall i, j | 0 <= i < j < |w| ensures w[i] != w[j] {
        assert v[i] == w[i] && v[j] == w[j];
      }
      forall i | 0 <= i < |w| ensures w[i] != b {
        assert v[i] == w[i] && v[|w|] == b;
      }
    }
  }

  /** The set of a window's bytes has one entry per byte exactly when no byte repeats, and
      fewer otherwise. */
  lemma {:induction false} ElementsCard<T>(w: seq<T>)
    ensures |Elements(w)| <= |w|
    ensures |Elements(w)| == |w| <==> Distinct(w)
    decreases |w|
  {
    if w != [] {
      var u, b := w[..|w| - 1], w[|w| - 1];
      assert w == u + [b];
      ElementsCard(u);
      DistinctSnoc(u, b);
      assert Elements(w) == Elements(u) + {b};
      if b in u {
        assert b in Elements(u);
        assert Elements(w) == Elements(u);
      } else {
        assert b !in Elements(u);
      }
    }
  }

  /** Reading byte `i` completes a marker exactly when it is new to the `n - 1` bytes before it
      and those are distinct. */
  lemma MarkerWindow<T>(s: seq<T>, n: nat, i: nat)
    requires 1 <= n && n - 1 <= i < |s|
    ensures IsMarker(s, n, i + 1) <==> Distinct(s[i + 1 - n..i]) && s[i] !in s[i + 1 - n..i]
  {
    assert s[i + 1 - n..i + 1] == s[i + 1 - n..i] + [s[i]];
    MarkerSlice(s, n, i + 1);
    DistinctSnoc(s[i + 1 - n..i], s[i]);
  }

  /** Pushing byte `i` and popping the front moves the window of the last `m` bytes on by one. */
  lemma Shift<T>(s: seq<T>, i: nat, m: nat)
    requires m <= i < |s|
    ensures (s[i - m..i] + [s[i]])[1..] == s[i + 1 - m..i + 1]
  {
    var w := (s[i - m..i] + [s[i]])[1..];
    assert |w| == m;
    forall t | 0 <= t < m ensures w[t] == s[i + 1 - m + t] {
      assert w[t] == (s[i - m..i] + [s[i]])[t + 1];
    }
  }

  /** `find_marker`: keep the last `n - 1` bytes in `lastN`; a byte not among them completes a
      marker when the set of them has `n - 1` entries. The result counts the bytes read. */
  method FindMarker<T(==)>(n: nat, s: seq<T>) returns (r: Option<nat>)
    requires 1 <= n
    ensures FirstMarkerIs(s, n, r)
  {
    var m := Min(n - 1, |s|);
    var lastN := s[..m];
    var unique: set<T> := {};
    var i := m;
    while i < |s|
      invariant m <= i <= |s| && (m == n - 1 || i == |s|)
      invariant lastN == s[i - m..i] && unique == {}
      invariant forall k | 0 <= k <= i :: !IsMarker(s, n, k)
    {
      var b := s[i];
      MarkerWindow(s, n, i);
      if b !in lastN {
        unique := unique + Elements(lastN);
        ElementsCard(lastN);
        if |unique| == n - 1 {
          return Some(i + 1);
        }
        unique := {};
      }
      Shift(s, i, m);
      lastN := (lastN + [b])[1..];
      i := i + 1;
    }
    return None;
  }

  /** `first_marker_in_file`: the position of the first marker in the file's bytes; the `unwrap`
      panics when the file holds no marker. */
  method FirstMarkerInFile<T(==)>(n: nat, bytes: seq<T>) returns (k: nat)
    requires 1 <= n && exists j | 0 <= j <= |bytes| :: IsMarker(bytes, n, j)
    ensures IsMarker(bytes, n, k) && forall j | 0 <= j < k :: !IsMarker(bytes, n, j)
  {
    var r := FindMarker(n, bytes);
    k := r.value;
  }

  /** `part_1`: the first start-of-packet marker, four distinct bytes. */
  method Part1<T(==)>(bytes: seq<T>) returns (k: nat)
    requires exists j | 0 <= j <= |bytes| :: IsMarker(bytes, 4, j)
    ensures FirstMarkerIs(bytes, 4, Some(k))
  {
    k := FirstMarkerInFile(4, bytes);
  }

  /** `part_2`: the first start-of-message marker, fourteen distinct bytes. */
  method Part2<T(==)>(bytes: seq<T>) returns (k: nat)
    requires exists j | 0 <= j <= |bytes| :: IsMarker(bytes, 14, j)
    ensures FirstMarkerIs(bytes, 14, Some(k))
  {
    k := FirstMarkerInFile(14, bytes);
  }

  /** Two equal bytes in the last `n` rule out a marker. */
  lemma Repeated<T>(s: seq<T>, n: nat, k: nat, i: nat, j: nat)
    requires k - n <= i < j < k <= |s| && s[i] == s[j]
    ensures !IsMarker(s, n, k)
  {
  }

  /** The test table of `find_marker`: the first marker of four distinct bytes ... */
  lemma ExamplePacket1()
    ensures FirstMarkerIs("bvwbjplbgvbhsrlpgdmjqwftvncz", 4, Some(5))
  {
    NoneBeforePacket1();
  }

  lemma NoneBeforePacket1()
    ensures forall j | 0 <= j < 5 :: !IsMarker("bvwbjplbgvbhsrlpgdmjqwftvncz", 4, j)
  {
    var s := "bvwbjplbgvbhsrlpgdmjqwftvncz";
    forall j | 0 <= j < 5 ensures !IsMarker(s, 4, j) {
      if j == 4 {
        Repeated(s, 4, 4, 0, 3);
      }
    }
  }

  lemma ExamplePacket2()
    ensures FirstMarkerIs("nppdvjthqldpwncqszvftbrmjlhg", 4, Some(6))
  {
    NoneBeforePacket2();
  }

  lemma NoneBeforePacket2()
    ensures forall j | 0 <= j < 6 :: !IsMarker("nppdvjthqldpwncqszvftbrmjlhg", 4, j)
  {
    var s := "nppdvjthqldpwncqszvftbrmjlhg";
    forall j | 0 <= j < 6 ensures !IsMarker(s, 4, j) {
      if j == 4 {
        Repeated(s, 4, 4, 1, 2);
      }       else if j == 5 {
        Repeated(s, 4, 5, 1, 2);
      }
    }
  }

  lemma ExamplePacket3()
    ensures FirstMarkerIs("nznrnfrfntjfmvfwmzdfjlvtqnbhcprsg", 4, Some(10))
  {
    NoneBeforePacket3();
  }

  lemma NoneBeforePacket3()
    ensures forall j | 0 <= j < 10 :: !IsMarker("nznrnfrfntjfmvfwmzdfjlvtqnbhcprsg", 4, j)
  {
    var s := "nznrnfrfntjfmvfwmzdfjlvtqnbhcprsg";
    forall j | 0 <= j < 10 ensures !IsMarker(s, 4, j) {
      if j == 4 {
        Repeated(s, 4, 4, 0, 2);
      }       else if j == 5 {
        Repeated(s, 4, 5, 2, 4);
      }       else if j == 6 {
        Repeated(s, 4, 6, 2, 4);
      }       else if j == 7 {
        Repeated(s, 4, 7, 3, 6);
      }       else if j == 8 {
        Repeated(s, 4, 8, 5, 7);
      }       else if j == 9 {
        Repeated(s, 4, 9, 5, 7);
      }
    }
  }

  lemma ExamplePacket4()
    ensures FirstMarkerIs("zcfzfwzzqfrljwzlrfnpqdbhtmscgvjw", 4, Some(11))
  {
    NoneBeforePacket4();
  }

  lemma NoneBeforePacket4()
    ensures forall j | 0 <= j < 11 :: !IsMarker("zcfzfwzzqfrljwzlrfnpqdbhtmscgvjw", 4, j)
  {
    var s := "zcfzfwzzqfrljwzlrfnpqdbhtmscgvjw";
    forall j | 0 <= j < 11 ensures !IsMarker(s, 4, j) {
      if j == 4 {
        Repeated(s, 4, 4, 0, 3);
      }       else if j == 5 {
        Repeated(s, 4, 5, 2, 4);
      }       else if j == 6 {
        Repeated(s, 4, 6, 2, 4);
      }       else if j == 7 {
        Repeated(s, 4, 7, 3, 6);
      }       else if j == 8 {
        Repeated(s, 4, 8, 6, 7);
      }       else if j == 9 {
        Repeated(s, 4, 9, 6, 7);
      }       else if j == 10 {
        Repeated(s, 4, 10, 6, 7);
      }
    }
  }

  lemma ExamplePacket5()
    ensures FirstMarkerIs("abcabcabcabcabcabcabcabc", 4, None)
  {
    var s := "abcabcabcabcabcabcabcabc";
    forall j | 0 <= j <= 24 ensures !IsMarker(s, 4, j) {
      if j == 4 {
        Repeated(s, 4, 4, 0, 3);
      }       else if j == 5 {
        Repeated(s, 4, 5, 1, 4);
      }       else if j == 6 {
        Repeated(s, 4, 6, 2, 5);
      }       else if j == 7 {
        Repeated(s, 4, 7, 3, 6);
      }       else if j == 8 {
        Repeated(s, 4, 8, 4, 7);
      }       else if j == 9 {
        Repeated(s, 4, 9, 5, 8);
      }       else if j == 10 {
        Repeated(s, 4, 10, 6, 9);
      }       else if j == 11 {
        Repeated(s, 4, 11, 7, 10);
      }       else if j == 12 {
        Repeated(s, 4, 12, 8, 11);
      }       else if j == 13 {
        Repeated(s, 4, 13, 9, 12);
      }       else if j == 14 {
        Repeated(s, 4, 14, 10, 13);
      }       else if j == 15 {
        Repeated(s, 4, 15, 11, 14);
      }       else if j == 16 {
        Repeated(s, 4, 16, 12, 15);
      }       else if j == 17 {
        Repeated(s, 4, 17, 13, 16);
      }       else if j == 18 {
        Repeated(s, 4, 18, 14, 17);
      }       else if j == 19 {
        Repeated(s, 4, 19, 15, 18);
      }       else if j == 20 {
        Repeated(s, 4, 20, 16, 19);
      }       else if j == 21 {
        Repeated(s, 4, 21, 17, 20);
      }       else if j == 22 {
        Repeated(s, 4, 22, 18, 21);
      }       else if j == 23 {
        Repeated(s, 4, 23, 19, 22);
      }       else if j == 24 {
        Repeated(s, 4, 24, 20, 23);
      }
    }
  }

  /** ... and of fourteen. */
  lemma ExampleMessage1()
    ensures FirstMarkerIs("mjqjpqmgbljsphdztnvjfqwrcgsmlb", 14, Some(19))
  {
    NoneBeforeMessage1();
  }

  lemma NoneBeforeMessage1()
    ensures forall j | 0 <= j < 19 :: !IsMarker("mjqjpqmgbljsphdztnvjfqwrcgsmlb", 14, j)
  {
    var s := "mjqjpqmgbljsphdztnvjfqwrcgsmlb";
    forall j | 0 <= j < 19 ensures !IsMarker(s, 14, j) {
      if j == 14 {
        Repeated(s, 14, 14, 0, 6);
      }       else if j == 15 {
        Repeated(s, 14, 15, 1, 3);
      }       else if j == 16 {
        Repeated(s, 14, 16, 2, 5);
      }       else if j == 17 {
        Repeated(s, 14, 17, 3, 10);
      }       else if j == 18 {
        Repeated(s, 14, 18, 4, 12);
      }
    }
  }

  lemma ExampleMessage2()
    ensures FirstMarkerIs("bvwbjplbgvbhsrlpgdmjqwftvncz", 14, Some(23))
  {
    NoneBeforeMessage2();
  }

  lemma NoneBeforeMessage2()
    ensures forall j | 0 <= j < 23 :: !IsMarker("bvwbjplbgvbhsrlpgdmjqwftvncz", 14, j)
  {
    var s := "bvwbjplbgvbhsrlpgdmjqwftvncz";
    forall j | 0 <= j < 23 ensures !IsMarker(s, 14, j) {
      if j == 14 {
        Repeated(s, 14, 14, 0, 3);
      }       else if j == 15 {
        Repeated(s, 14, 15, 1, 9);
      }       else if j == 16 {
        Repeated(s, 14, 16, 3, 7);
      }       else if j == 17 {
        Repeated(s, 14, 17, 3, 7);
      }       else if j == 18 {
        Repeated(s, 14, 18, 5, 15);
      }       else if j == 19 {
        Repeated(s, 14, 19, 5, 15);
      }       else if j == 20 {
        Repeated(s, 14, 20, 6, 14);
      }       else if j == 21 {
        Repeated(s, 14, 21, 7, 10);
      }       else if j == 22 {
        Repeated(s, 14, 22, 8, 16);
      }
    }
  }

  lemma ExampleMessage3()
    ensures FirstMarkerIs("nppdvjthqldpwncqszvftbrmjlhg", 14, Some(23))
  {
    NoneBeforeMessage3();
  }

  lemma NoneBeforeMessage3()
    ensures forall j | 0 <= j < 23 :: !IsMarker("nppdvjthqldpwncqszvftbrmjlhg", 14, j)
  {
    var s := "nppdvjthqldpwncqszvftbrmjlhg";
    forall j | 0 <= j < 23 ensures !IsMarker(s, 14, j) {
      if j == 14 {
        Repeated(s, 14, 14, 0, 13);
      }       else if j == 15 {
        Repeated(s, 14, 15, 1, 2);
      }       else if j == 16 {
        Repeated(s, 14, 16, 2, 11);
      }       else if j == 17 {
        Repeated(s, 14, 17, 3, 10);
      }       else if j == 18 {
        Repeated(s, 14, 18, 8, 15);
      }       else if j == 19 {
        Repeated(s, 14, 19, 8, 15);
      }       else if j == 20 {
        Repeated(s, 14, 20, 8, 15);
      }       else if j == 21 {
        Repeated(s, 14, 21, 8, 15);
      }       else if j == 22 {
        Repeated(s, 14, 22, 8, 15);
      }
    }
  }

  lemma ExampleMessage4()
    ensures FirstMarkerIs("nznrnfrfntjfmvfwmzdfjlvtqnbhcprsg", 14, Some(29))
  {
    NoneBeforeMessage4();
  }

  lemma NoneBeforeMessage4()
    ensures forall j | 0 <= j < 29 :: !IsMarker("nznrnfrfntjfmvfwmzdfjlvtqnbhcprsg", 14, j)
  {
    var s := "nznrnfrfntjfmvfwmzdfjlvtqnbhcprsg";
    forall j | 0 <= j < 29 ensures !IsMarker(s, 14, j) {
      if j == 14 {
        Repeated(s, 14, 14, 0, 2);
      }       else if j == 15 {
        Repeated(s, 14, 15, 2, 4);
      }       else if j == 16 {
        Repeated(s, 14, 16, 2, 4);
      }       else if j == 17 {
        Repeated(s, 14, 17, 3, 6);
      }       else if j == 18 {
        Repeated(s, 14, 18, 4, 8);
      }       else if j == 19 {
        Repeated(s, 14, 19, 5, 7);
      }       else if j == 20 {
        Repeated(s, 14, 20, 7, 11);
      }       else if j == 21 {
        Repeated(s, 14, 21, 7, 11);
      }       else if j == 22 {
        Repeated(s, 14, 22, 10, 20);
      }       else if j == 23 {
        Repeated(s, 14, 23, 10, 20);
      }       else if j == 24 {
        Repeated(s, 14, 24, 10, 20);
      }       else if j == 25 {
        Repeated(s, 14, 25, 11, 14);
      }       else if j == 26 {
        Repeated(s, 14, 26, 12, 16);
      }       else if j == 27 {
        Repeated(s, 14, 27, 13, 22);
      }       else if j == 28 {
        Repeated(s, 14, 28, 14, 19);
      }
    }
  }

  lemma ExampleMessage5()
    ensures FirstMarkerIs("zcfzfwzzqfrljwzlrfnpqdbhtmscgvjw", 14, Some(26))
  {
    NoneBeforeMessage5();
  }

  lemma NoneBeforeMessage5()
    ensures forall j | 0 <= j < 26 :: !IsMarker("zcfzfwzzqfrljwzlrfnpqdbhtmscgvjw", 14, j)
  {
    var s := "zcfzfwzzqfrljwzlrfnpqdbhtmscgvjw";
    forall j | 0 <= j < 26 ensures !IsMarker(s, 14, j) {
      if j == 14 {
        Repeated(s, 14, 14, 0, 3);
      }       else if j == 15 {
        Repeated(s, 14, 15, 2, 4);
      }       else if j == 16 {
        Repeated(s, 14, 16, 2, 4);
      }       else if j == 17 {
        Repeated(s, 14, 17, 3, 6);
      }       else if j == 18 {
        Repeated(s, 14, 18, 4, 9);
      }       else if j == 19 {
        Repeated(s, 14, 19, 5, 13);
      }       else if j == 20 {
        Repeated(s, 14, 20, 6, 7);
      }       else if j == 21 {
        Repeated(s, 14, 21, 7, 14);
      }       else if j == 22 {
        Repeated(s, 14, 22, 8, 20);
      }       else if j == 23 {
        Repeated(s, 14, 23, 9, 17);
      }       else if j == 24 {
        Repeated(s, 14, 24, 10, 16);
      }       else if j == 25 {
        Repeated(s, 14, 25, 11, 15);
      }
    }
  }
}
