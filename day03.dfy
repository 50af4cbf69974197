/** Day 3: rucksacks. Each line is split into two compartments at half its length; part 1
    prices an item both compartments share, part 2 the one letter common to each group of
    three rucksacks. */
module Day03 {
  import opened Util

  /** The two compartments as the sets of items they hold. */
  datatype Rucksack = Rucksack(first: set<char>, second: set<char>)

  predicate IsLetter(c: char) { 'a' <= c <= 'z' || 'A' <= c <= 'Z' }

  /** The 52 letters the group intersection starts from. */
  function Letters(): (s: set<char>)
    ensures forall c :: c in s <==> IsLetter(c)
  {
    set c: char | ('a' <= c <= 'z' || 'A' <= c <= 'Z') && IsLetter(c)
  }

  /** The items at positions below half the line's length, and those at or above it. */
  function Compartments(line: string): (r: Rucksack)
    ensures forall c :: c in r.first <==> exists i | 0 <= i < |line| / 2 :: line[i] == c
    ensures forall c :: c in r.second <==> exists i | |line| / 2 <= i < |line| :: line[i] == c
  {
    var boundary := |line| / 2;
    Rucksack(set i | 0 <= i < boundary :: line[i], set i | boundary <= i < |line| :: line[i])
  }

  /** The rucksack the iterator yields for each line; every line yields one. */
  function Rucksacks(lines: seq<string>): (rs: seq<Rucksack>)
    ensures |rs| == |lines|
    ensures forall i | 0 <= i < |lines| :: rs[i] == Compartments(lines[i])
  {
    seq(|lines|, i requires 0 <= i < |lines| => Compartments(lines[i]))
  }

  /** The iterator over the lines still to be read. */
  class RucksacksInput {
    var lines: seq<string>

    constructor (lines: seq<string>)
      ensures this.lines == lines
    {
      this.lines := lines;
    }

    /** `next`: the first half of the line's characters go into the first compartment, the rest
        into the second. */
    method Next() returns (r: Option<Rucksack>)
      modifies this
      ensures old(lines) == [] ==> r == None && lines == []
      ensures old(lines) != [] ==> r == Some(Compartments(old(lines)[0])) && lines == old(lines)[1..]
    {
      if lines == [] {
        return None;
      }
      var line := lines[0];
      lines := lines[1..];
      var boundary := |line| / 2;
      var first: set<char> := {};
      var second: set<char> := {};
      for i := 0 to |line|
        invariant first == set k | 0 <= k < Min(i, boundary) :: line[k]
        invariant second == set k | boundary <= k < Max(i, boundary) :: line[k]
      {
        if i < boundary {
          first := first + {line[i]};
        } else {
          second := second + {line[i]};
        }
      }
      r := Some(Rucksack(first, second));
    }
  }

  /** `get_priority`: 'a'..'z' are 1..26, 'A'..'Z' are 27..52, anything else is an error. */
  function Priority(item: char): (r: Result<nat>)
    ensures r.Ok? <==> IsLetter(item)
    ensures r.Ok? ==> 1 <= r.value <= 52
    ensures 'a' <= item <= 'z' ==> r == Ok((item as int) - ('a' as int) + 1)
    ensures 'A' <= item <= 'Z' ==> r == Ok((item as int) - ('A' as int) + 27)
  {
    if 'a' <= item <= 'z' then Ok(item as int - 96)
    else if 'A' <= item <= 'Z' then Ok(item as int - 38)
    else Err("Invalid rucksack item")
  }

  /** Different letters have different priorities. */
  lemma PriorityInjective(a: char, b: char)
    requires IsLetter(a) && IsLetter(b) && Priority(a) == Priority(b)
    ensures a == b
  {
  }

  lemma PriorityExamples()
    ensures Priority('a') == Ok(1) && Priority('z') == Ok(26)
    ensures Priority('A') == Ok(27) && Priority('Z') == Ok(52)
    ensures Priority('@').Err?
  {
  }

  /** `p` is what part 1 adds for rucksack `r`: the priority of some item both compartments
      hold, or nothing when they share none. Which shared item is taken depends on the hash
      set's iteration order, so the model allows any of them. */
  ghost predicate Found(r: Rucksack, p: nat)
  {
    (r.first * r.second == {} && p == 0) ||
    (exists item | item in r.first * r.second :: Priority(item) == Ok(p))
  }

  /** `ps` holds one `Found` amount per rucksack, in order. */
  ghost predicate Picks(rs: seq<Rucksack>, ps: seq<nat>)
  {
    |ps| == |rs| && forall i | 0 <= i < |rs| :: Found(rs[i], ps[i])
  }

  /** Every item the two compartments share is a letter, so `unwrap` never panics. */
  predicate SharedAreLetters(rs: seq<Rucksack>)
  {
    forall i, c | 0 <= i < |rs| && c in rs[i].first && c in rs[i].second :: IsLetter(c)
  }

  /** The inner loop of `part_1`: scan the first compartment for an item the second holds. */
  method SharedPriority(r: Rucksack) returns (p: nat)
    requires forall c | c in r.first && c in r.second :: IsLetter(c)
    ensures Found(r, p)
  {
    var items := r.first;
    while items != {}
      invariant items <= r.first
      invariant forall c | c in r.first - items :: c !in r.second
      decreases |items|
    {
      var item :| item in items;
      if item in r.second {
        p := Priority(item).value;
        return;
      }
      items := items - {item};
    }
    assert r.first * r.second == {} by {
      forall c | c in r.first ensures c !in r.second {
        assert c in r.first - items;
      }
    }
    p := 0;
  }

  /** `part_1`: add one shared item's priority per rucksack. */
  method Part1(lines: seq<string>) returns (totalPriority: nat)
    requires SharedAreLetters(Rucksacks(lines))
    ensures exists ps: seq<nat> :: Picks(Rucksacks(lines), ps) && totalPriority == Sum(ps)
  {
    ghost var rs := Rucksacks(lines);
    var input := new RucksacksInput(lines);
    totalPriority := 0;
    ghost var i := 0;
    ghost var ps: seq<nat> := [];
    while true
      invariant 0 <= i <= |lines| && input.lines == lines[i..]
      invariant Picks(rs[..i], ps) && totalPriority == Sum(ps)
      decreases |input.lines|
    {
      var rucksack := input.Next();
      if rucksack.None? {
        assert i == |lines|;
        assert rs[..i] == rs;
        break;
      }
      assert rucksack.value == rs[i];
      var p := SharedPriority(rucksack.value);
      assert (ps + [p])[..|ps|] == ps;
      totalPriority := totalPriority + p;
      ps := ps + [p];
      i := i + 1;
    }
  }

  /** When every rucksack shares a single item, part 1 is deterministic: it adds exactly that
      item's priority for each rucksack. */
  lemma PicksUnique(rs: seq<Rucksack>, ps: seq<nat>, shared: seq<char>)
    requires |shared| == |rs|
    requires forall i | 0 <= i < |rs| :: rs[i].first * rs[i].second == {shared[i]}
    requires Picks(rs, ps)
    ensures forall i | 0 <= i < |rs| :: Priority(shared[i]) == Ok(ps[i])
  {
    forall i | 0 <= i < |rs| ensures Priority(shared[i]) == Ok(ps[i]) {
      assert shared[i] in rs[i].first * rs[i].second;
      var item :| item in rs[i].first * rs[i].second && Priority(item) == Ok(ps[i]);
    }
  }

  /** Part 1 adds at most 52 per rucksack, and nothing for a rucksack whose compartments share no item. */
  lemma {:induction false} PicksBound(rs: seq<Rucksack>, ps: seq<nat>)
    requires Picks(rs, ps)
    ensures Sum(ps) <= 52 * |rs|
    ensures forall i | 0 <= i < |rs| && rs[i].first * rs[i].second == {} :: ps[i] == 0
    decreases |rs|
  {
    if rs != [] {
      var n := |rs| - 1;
      assert Picks(rs[..n], ps[..n]);
      PicksBound(rs[..n], ps[..n]);
      if rs[n].first * rs[n].second != {} {
        var item :| item in rs[n].first * rs[n].second && Priority(item) == Ok(ps[n]);
      }
    }
    forall i | 0 <= i < |rs| && rs[i].first * rs[i].second == {} ensures ps[i] == 0 {
      assert Found(rs[i], ps[i]);
    }
  }

  /** Every item in either compartment. */
  function Items(r: Rucksack): set<char> { r.first + r.second }

  /** The letters found in every rucksack of `rs[lo..hi]`. */
  function CommonItems(rs: seq<Rucksack>, lo: nat, hi: nat): (s: set<char>)
    requires lo <= hi <= |rs|
    ensures s <= Letters()
    decreases hi - lo
  {
    if hi == lo then Letters() else CommonItems(rs, lo, hi - 1) * Items(rs[hi - 1])
  }

  lemma CommonItemsMeaning(rs: seq<Rucksack>, lo: nat, hi: nat, c: char)
    requires lo <= hi <= |rs|
    ensures c in CommonItems(rs, lo, hi) <==> IsLetter(c) && forall k | lo <= k < hi :: c in Items(rs[k])
    decreases hi - lo
  {
    if hi > lo {
      CommonItemsMeaning(rs, lo, hi - 1, c);
    }
  }

  /** The group of rucksacks `3g`, `3g+1`, `3g+2` shares exactly one letter, as the source asserts. */
  predicate OneBadge(rs: seq<Rucksack>, g: nat)
    requires 3 * g + 3 <= |rs|
  {
    |CommonItems(rs, 3 * g, 3 * g + 3)| == 1
  }

  ghost predicate OneBadgeEach(rs: seq<Rucksack>)
  {
    forall g: nat | 3 * g + 3 <= |rs| :: OneBadge(rs, g)
  }

  /** The single letter of a one-element set of letters. */
  ghost function Only(s: set<char>): (c: char)
    requires |s| == 1
    ensures s == {c}
  {
    var c :| c in s;
    assert s - {c} == {} by { assert |s - {c}| == 0; }
    assert s == {c};
    c
  }

  lemma OnlyIs(s: set<char>, c: char)
    requires |s| == 1 && c in s
    ensures Only(s) == c
  {
    assert s - {c} == {} by { assert |s - {c}| == 0; }
  }

  /** The sum of the badge priorities of the first `n` complete groups. */
  ghost function BadgeTotal(rs: seq<Rucksack>, n: nat): nat
    requires 3 * n <= |rs| && OneBadgeEach(rs)
  {
    if n == 0 then 0
    else
      assert OneBadge(rs, n - 1);
      var badge := Only(CommonItems(rs, 3 * (n - 1), 3 * (n - 1) + 3));
      BadgeTotal(rs, n - 1) + Priority(badge).value
  }

  /** Rucksack `k` of group `g` in part 2: the first of a group starts again from all letters,
      every one narrows the common set, and the third holds exactly one letter, whose priority
      completes the group's share of the total. */
  lemma ReadRucksack(rs: seq<Rucksack>, i: nat, g: nat, k: nat, r: Rucksack, common: set<char>, total: nat)
    requires i == 3 * g + k && k < 3 && i < |rs| && r == rs[i] && OneBadgeEach(rs)
    requires k != 0 ==> common == CommonItems(rs, 3 * g, i)
    requires total == BadgeTotal(rs, g)
    ensures k == 0 ==> Letters() * Items(r) == CommonItems(rs, 3 * g, i + 1)
    ensures k != 0 ==> common * Items(r) == CommonItems(rs, 3 * g, i + 1)
    ensures k == 2 ==> common * Items(r) != {}
    ensures k == 2 ==> forall b | b in common * Items(r) ::
              Priority(b).Ok? && total + Priority(b).value == BadgeTotal(rs, g + 1)
  {
    CommonStep(rs, 3 * g, 3 * g + k, common);
    if k == 2 {
      var next := common * Items(rs[3 * g + k]);
      assert OneBadge(rs, g);
      assert next != {};
      forall b | b in next ensures Priority(b).Ok? && total + Priority(b).value == BadgeTotal(rs, g + 1) {
        BadgeStep(rs, g, b);
      }
    }
  }

  /** Rucksack `3g + k` is number `k` of group `g`. */
  lemma GroupPosition(g: nat, k: nat)
    requires k < 3
    ensures (3 * g + k) % 3 == k && (3 * g + k) / 3 == g
  {
  }

  /** One step of the intersection: the first rucksack of a group starts again from all letters. */
  lemma CommonStep(rs: seq<Rucksack>, lo: nat, i: nat, common: set<char>)
    requires lo <= i < |rs|
    requires i != lo ==> common == CommonItems(rs, lo, i)
    ensures (if i == lo then Letters() else common) * Items(rs[i]) == CommonItems(rs, lo, i + 1)
  {
  }

  /** Any member of a group's common set is its badge, and adds its priority to the total. */
  lemma BadgeStep(rs: seq<Rucksack>, g: nat, badge: char)
    requires 3 * g + 3 <= |rs| && OneBadgeEach(rs) && badge in CommonItems(rs, 3 * g, 3 * g + 3)
    ensures Priority(badge).Ok?
    ensures BadgeTotal(rs, g + 1) == BadgeTotal(rs, g) + Priority(badge).value
  {
    assert OneBadge(rs, g);
    OnlyIs(CommonItems(rs, 3 * g, 3 * g + 3), badge);
  }

  /** `part_2`: for each complete group of three, the priority of the one letter they share.
      A final incomplete group adds nothing. */
  method Part2(lines: seq<string>) returns (totalPriority: nat)
    requires OneBadgeEach(Rucksacks(lines))
    ensures totalPriority == BadgeTotal(Rucksacks(lines), |lines| / 3)
  {
    ghost var rs := Rucksacks(lines);
    var input := new RucksacksInput(lines);
    totalPriority := 0;
    var commonItems: set<char> := {};
    var i := 0;
    ghost var g, k := 0, 0;
    while true
      invariant 0 <= i <= |lines| && input.lines == lines[i..]
      invariant i == 3 * g + k && 0 <= k < 3
      invariant k != 0 ==> commonItems == CommonItems(rs, 3 * g, i)
      invariant totalPriority == BadgeTotal(rs, g)
      decreases |input.lines|
    {
      var rucksack := input.Next();
      GroupPosition(g, k);
      var position := i % 3;
      assert position == k;
      if rucksack.None? {
        assert i == |lines| && |lines| / 3 == g;
        break;
      }
      assert rucksack.value == rs[i];
      ReadRucksack(rs, i, g, k, rucksack.value, commonItems, totalPriority);
      if position == 0 {
        commonItems := Letters();
      }
      commonItems := commonItems * Items(rucksack.value);
      if position == 2 {
        var badge :| badge in commonItems;
        totalPriority := totalPriority + Priority(badge).value;
        g, k := g + 1, 0;
      } else {
        k := k + 1;
      }
      i := i + 1;
    }
  }
}
