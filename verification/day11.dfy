// Day 11, "Reactor": counting the paths from one device to another in a
// directed graph of devices, by a depth-first search that marks the
// devices on the current path and unmarks them when it backtracks.
// Part 1 counts every simple path from "you" to "out"; part 2 counts the
// paths from "svr" to "out" that pass through both "dac" and "fft",
// memoising on the device and a two-bit record of which of them were seen.

module Day11 {
  import opened Common

  type Node = string

  /** Each device and the devices its outputs feed, in the order listed. */
  type Graph = map<Node, seq<Node>>

  /** A non-empty line without the ": " between device and outputs. */
  datatype ParseError = MissingSeparator(line: string)

  // ---------------------------------------------------------------------
  // Parsing
  // ---------------------------------------------------------------------

  /** `s` holds ": " at position `k`. */
  predicate SeparatorAt(s: string, k: int) {
    0 <= k && k + 1 < |s| && s[k] == ':' && s[k + 1] == ' '
  }

  /** The first position at or after `from` holding ": ", if any. */
  function FindSeparator(s: string, from: nat): (i: Option<nat>)
    ensures i.Some? ==> from <= i.value && SeparatorAt(s, i.value)
    ensures i.Some? ==> forall k :: from <= k < i.value ==> !SeparatorAt(s, k)
    ensures i.None? ==> forall k :: from <= k ==> !SeparatorAt(s, k)
    decreases |s| - from
  {
    if from + 1 >= |s| then None
    else if SeparatorAt(s, from) then Some(from)
    else FindSeparator(s, from + 1)
  }

  /** Rust's `split_once(": ")`: the text before and after the first ": ". */
  function SplitOnce(line: string): (r: Option<(string, string)>)
    ensures r.Some? ==> line == r.value.0 + ": " + r.value.1
    ensures r.Some? ==> forall k :: k < |r.value.0| ==> !SeparatorAt(line, k)
    ensures r.None? ==> forall k :: !SeparatorAt(line, k)
  {
    match FindSeparator(line, 0)
    case None => None
    case Some(i) =>
      assert line == line[..i] + ": " + line[i + 2..];
      Some((line[..i], line[i + 2..]))
  }

  /** A word of `split_whitespace`: non-empty and free of whitespace. */
  predicate IsWord(w: string) {
    w != [] && forall k :: 0 <= k < |w| ==> !IsSpace(w[k])
  }

  /** The end of the run of non-whitespace characters starting at `i`. */
  function WordEnd(s: string, i: nat): (j: nat)
    requires i <= |s|
    ensures i <= j <= |s| && (j < |s| ==> IsSpace(s[j]))
    ensures forall k :: i <= k < j ==> !IsSpace(s[k])
    decreases |s| - i
  {
    if i == |s| || IsSpace(s[i]) then i else WordEnd(s, i + 1)
  }

  /** Rust's `split_whitespace`: the maximal runs of non-whitespace, in order. */
  function Words(s: string): (ws: seq<string>)
    ensures forall k :: 0 <= k < |ws| ==> IsWord(ws[k])
    decreases |s|
  {
    if s == [] then []
    else if IsSpace(s[0]) then Words(s[1..])
    else
      var j := WordEnd(s, 0);
      [s[..j]] + Words(s[j..])
  }

  /** A word followed by whitespace or nothing is split off whole. */
  lemma WordsCons(w: string, rest: string)
    requires IsWord(w) && (rest == [] || IsSpace(rest[0]))
    ensures Words(w + rest) == [w] + Words(rest)
  {
    var s := w + rest;
    assert forall k :: 0 <= k < |w| ==> s[k] == w[k];
    WordEndAt(s, 0, |w|);
    assert s[..|w|] == w && s[|w|..] == rest;
  }

  /** The run ends at the first whitespace character or the end of the string. */
  lemma {:induction false} WordEndAt(s: string, i: nat, e: nat)
    requires i <= e <= |s| && (e == |s| || IsSpace(s[e]))
    requires forall k :: i <= k < e ==> !IsSpace(s[k])
    ensures WordEnd(s, i) == e
    decreases e - i
  {
    if i < e {
      WordEndAt(s, i + 1, e);
    }
  }

  /** Splitting words joined by single spaces gives the words back. */
  lemma {:induction false} WordsJoin(ws: seq<string>)
    requires |ws| >= 1 && forall k :: 0 <= k < |ws| ==> IsWord(ws[k])
    ensures Words(Join(ws, ' ')) == ws
  {
    if |ws| == 1 {
      WordsCons(ws[0], []);
      assert ws[0] + [] == ws[0] && [ws[0]] == ws;
    } else {
      var rest := Join(ws[1..], ' ');
      WordsJoin(ws[1..]);
      WordsCons(ws[0], [' '] + rest);
      assert ws[0] + [' '] + rest == ws[0] + ([' '] + rest);
      assert ([' '] + rest)[1..] == rest;
      assert Words([' '] + rest) == Words(rest);
      assert [ws[0]] + ws[1..] == ws;
    }
  }

  /** What a line contributes: nothing when blank, else its device and outputs. */
  function Entry(line: string): (r: Result<Option<(Node, seq<Node>)>, ParseError>)
    ensures line == [] <==> r == Ok(None)
    ensures r.Err? <==> line != [] && forall k :: !SeparatorAt(line, k)
  {
    if line == [] then Ok(None)
    else match SplitOnce(line)
      case None => Err(MissingSeparator(line))
      case Some((device, outputs)) => Ok(Some((device, Words(outputs))))
  }

  /** `parse_graph`: the lines collected into a map, a later line for a device replacing an earlier one. */
  function ParseGraph(lines: seq<string>): Result<Graph, ParseError>
  {
    if lines == [] then Ok(map[])
    else match ParseGraph(lines[..|lines| - 1])
      case Err(e) => Err(e)
      case Ok(g) =>
        match Entry(lines[|lines| - 1])
        case Err(e) => Err(e)
        case Ok(None) => Ok(g)
        case Ok(Some((device, outputs))) => Ok(g[device := outputs])
  }

  /** Parsing fails exactly when some line is malformed, and then at the first one. */
  lemma {:induction false} ParseGraphError(lines: seq<string>)
    ensures ParseGraph(lines).Err? <==> exists i :: 0 <= i < |lines| && Entry(lines[i]).Err?
    ensures ParseGraph(lines).Err? ==>
      exists i :: 0 <= i < |lines| && Entry(lines[i]).Err? && ParseGraph(lines).error == Entry(lines[i]).error &&
        forall j :: 0 <= j < i ==> Entry(lines[j]).Ok?
  {
    if lines != [] {
      var init := lines[..|lines| - 1];
      ParseGraphError(init);
      assert forall i :: 0 <= i < |init| ==> init[i] == lines[i];
    }
  }

  /** Line `i` gives outputs for `device`. */
  predicate Names(lines: seq<string>, i: int, device: Node) {
    0 <= i < |lines| && Entry(lines[i]).Ok? && Entry(lines[i]).value.Some? && Entry(lines[i]).value.value.0 == device
  }

  /** A device is a key exactly when some line names it. */
  lemma {:induction false} ParseGraphKeys(lines: seq<string>, device: Node)
    requires ParseGraph(lines).Ok?
    ensures device in ParseGraph(lines).value <==> exists i :: Names(lines, i, device)
  {
    if lines != [] {
      var init, n := lines[..|lines| - 1], |lines| - 1;
      assert ParseGraph(init).Ok?;
      ParseGraphKeys(init, device);
      forall i | 0 <= i < n
        ensures Names(init, i, device) == Names(lines, i, device)
      {
        assert init[i] == lines[i];
      }
      if !Names(lines, n, device) {
        assert device in ParseGraph(lines).value <==> device in ParseGraph(init).value;
      }
    }
  }

  /** A device maps to the outputs of the last line that names it. */
  lemma {:induction false} ParseGraphLast(lines: seq<string>, device: Node, i: nat)
    requires ParseGraph(lines).Ok? && Names(lines, i, device)
    requires forall j :: i < j ==> !Names(lines, j, device)
    ensures device in ParseGraph(lines).value && ParseGraph(lines).value[device] == Entry(lines[i]).value.value.1
  {
    var init, n := lines[..|lines| - 1], |lines| - 1;
    assert ParseGraph(init).Ok?;
    var g := ParseGraph(init).value;
    if i < n {
      assert init[i] == lines[i];
      forall j | i < j
        ensures !Names(init, j, device)
      {
        if j < n {
          assert init[j] == lines[j] && !Names(lines, j, device);
        }
      }
      ParseGraphLast(init, device, i);
      assert !Names(lines, n, device);
      assert ParseGraph(lines).value[device] == g[device];
    }
  }

  /** The line listing a device's outputs, as the puzzle input writes it. */
  function ShowLine(device: Node, outputs: seq<Node>): string
    requires |outputs| >= 1
  {
    device + ": " + Join(outputs, ' ')
  }

  /** A written line reads back as its device and outputs. */
  lemma EntryShowLine(device: Node, outputs: seq<Node>)
    requires ':' !in device && |outputs| >= 1 && forall k :: 0 <= k < |outputs| ==> IsWord(outputs[k])
    ensures Entry(ShowLine(device, outputs)) == Ok(Some((device, outputs)))
  {
    var rest := Join(outputs, ' ');
    var line := ShowLine(device, outputs);
    assert line[|device|] == ':' && line[|device| + 1] == ' ';
    assert SeparatorAt(line, |device|);
    var r := SplitOnce(line);
    var a, b := r.value.0, r.value.1;
    assert |a| == |device|;
    assert a == line[..|device|] == device;
    assert b == line[|device| + 2..] == rest;
    WordsJoin(outputs);
  }

  /** The map the lines for `entries` are collected into, later entries winning. */
  function Collect(entries: seq<(Node, seq<Node>)>): Graph {
    if entries == [] then map[]
    else Collect(entries[..|entries| - 1])[entries[|entries| - 1].0 := entries[|entries| - 1].1]
  }

  /** Well-formed entries: a device without ':' and at least one output word. */
  predicate Showable(entries: seq<(Node, seq<Node>)>) {
    forall i :: 0 <= i < |entries| ==>
      ':' !in entries[i].0 && |entries[i].1| >= 1 && forall k :: 0 <= k < |entries[i].1| ==> IsWord(entries[i].1[k])
  }

  function ShowLines(entries: seq<(Node, seq<Node>)>): (lines: seq<string>)
    requires Showable(entries)
    ensures |lines| == |entries|
  {
    if entries == [] then []
    else ShowLines(entries[..|entries| - 1]) + [ShowLine(entries[|entries| - 1].0, entries[|entries| - 1].1)]
  }

  /** Written lines parse back to the collected map. */
  lemma {:induction false} ParseShowLines(entries: seq<(Node, seq<Node>)>)
    requires Showable(entries)
    ensures ParseGraph(ShowLines(entries)) == Ok(Collect(entries))
  {
    if entries != [] {
      var init, last := entries[..|entries| - 1], entries[|entries| - 1];
      assert Showable(init);
      ParseShowLines(init);
      EntryShowLine(last.0, last.1);
      var lines := ShowLines(entries);
      assert lines[..|lines| - 1] == ShowLines(init);
    }
  }

  // ---------------------------------------------------------------------
  // The simple paths, enumerated
  // ---------------------------------------------------------------------

  /** Marking an unmarked key leaves fewer unmarked keys. */
  lemma MarkShrinks(keys: set<Node>, visited: set<Node>, c: Node)
    requires c in keys && c !in visited
    ensures |keys - (visited + {c})| < |keys - visited|
  {
    var rest := keys - visited;
    assert keys - (visited + {c}) == rest - {c};
    assert rest == (rest - {c}) + {c};
  }

  /** Each path with `c` put in front. */
  function Prepend(c: Node, ps: seq<seq<Node>>): (r: seq<seq<Node>>)
    ensures |r| == |ps| && forall i :: 0 <= i < |ps| ==> r[i] == [c] + ps[i]
  {
    seq(|ps|, i requires 0 <= i < |ps| => [c] + ps[i])
  }

  /**
   * The paths the search walks from `c` to `t` when the devices in
   * `visited` are marked, in the order it walks them: `c` alone when it is
   * the target, none when it has no outputs listed, and otherwise `c`
   * followed by each path from each unmarked output in turn, with `c`
   * marked.
   */
  function Paths(g: Graph, c: Node, t: Node, visited: set<Node>): (ps: seq<seq<Node>>)
    requires c !in visited
    ensures forall p {:trigger p in ps} :: p in ps ==> |p| >= 1 && p[0] == c
    decreases |g.Keys - visited|, 0
  {
    if c == t then [[c]]
    else if c !in g then []
    else
      MarkShrinks(g.Keys, visited, c);
      Prepend(c, PathsVia(g, g[c], t, visited + {c}))
  }

  /** The paths from each unmarked device of `ns` in turn. */
  function PathsVia(g: Graph, ns: seq<Node>, t: Node, visited: set<Node>): (ps: seq<seq<Node>>)
    ensures forall p {:trigger p in ps} :: p in ps ==> |p| >= 1 && p[0] in ns && p[0] !in visited
    decreases |g.Keys - visited|, 1, |ns|
  {
    if ns == [] then []
    else
      var n := ns[|ns| - 1];
      PathsVia(g, ns[..|ns| - 1], t, visited) + (if n in visited then [] else Paths(g, n, t, visited))
  }

  /**
   * `p` is a simple path to `t` along listed outputs, through no marked
   * device.
   */
  ghost predicate SimplePath(g: Graph, t: Node, visited: set<Node>, p: seq<Node>) {
    && |p| >= 1 && p[|p| - 1] == t
    && (forall i :: 0 <= i < |p| - 1 ==> p[i] in g && p[i + 1] in g[p[i]])
    && (forall i, j :: 0 <= i < j < |p| ==> p[i] != p[j])
    && (forall i :: 0 <= i < |p| ==> p[i] !in visited)
  }

  /** A simple path of two or more devices is its first step followed by a simple path with that start marked. */
  lemma SimpleCons(g: Graph, c: Node, t: Node, visited: set<Node>, p: seq<Node>)
    requires c != t && c in g && c !in visited && |p| >= 2 && p[0] == c
    ensures SimplePath(g, t, visited, p) <==>
      p[1] in g[c] && SimplePath(g, t, visited + {c}, p[1..])
  {
    var q := p[1..];
    if SimplePath(g, t, visited, p) {
      forall i | 0 <= i < |q| - 1
        ensures q[i] in g && q[i + 1] in g[q[i]]
      {
        assert q[i] == p[i + 1] && q[i + 1] == p[i + 2];
      }
      forall i, j | 0 <= i < j < |q|
        ensures q[i] != q[j]
      {
        assert q[i] == p[i + 1] && q[j] == p[j + 1];
      }
      forall i | 0 <= i < |q|
        ensures q[i] !in visited + {c}
      {
        assert q[i] == p[i + 1] && p[0] != p[i + 1];
      }
    }
    if p[1] in g[c] && SimplePath(g, t, visited + {c}, q) {
      forall i | 0 <= i < |p| - 1
        ensures p[i] in g && p[i + 1] in g[p[i]]
      {
        if i > 0 {
          assert p[i] == q[i - 1] && p[i + 1] == q[i];
        }
      }
      forall i, j | 0 <= i < j < |p|
        ensures p[i] != p[j]
      {
        assert p[j] == q[j - 1];
        if i > 0 {
          assert p[i] == q[i - 1];
        } else {
          assert p[j] !in visited + {c};
        }
      }
      forall i | 0 <= i < |p|
        ensures p[i] !in visited
      {
        if i > 0 {
          assert p[i] == q[i - 1];
        }
      }
    }
  }

  /** The enumeration holds exactly the simple paths. */
  lemma {:induction false} PathsMembers(g: Graph, c: Node, t: Node, visited: set<Node>, p: seq<Node>)
    requires c !in visited
    ensures p in Paths(g, c, t, visited) <==> |p| >= 1 && p[0] == c && SimplePath(g, t, visited, p)
    decreases |g.Keys - visited|, 0, 1
  {
    if c == t {
      if p == [c] {
        assert SimplePath(g, t, visited, p);
      }
    } else if c in g {
      MarkShrinks(g.Keys, visited, c);
      PathsStep(g, c, t, visited, p);
    }
  }

  /** The step case: a path of two or more devices is found through its second device. */
  lemma {:induction false} PathsStep(g: Graph, c: Node, t: Node, visited: set<Node>, p: seq<Node>)
    requires c !in visited && c != t && c in g
    requires |g.Keys - (visited + {c})| < |g.Keys - visited|
    ensures p in Paths(g, c, t, visited) <==> |p| >= 1 && p[0] == c && SimplePath(g, t, visited, p)
    decreases |g.Keys - visited|, 0, 0
  {
    var ps := PathsVia(g, g[c], t, visited + {c});
    assert Paths(g, c, t, visited) == Prepend(c, ps);
    PrependMembers(c, ps, p);
    if |p| >= 2 && p[0] == c {
      SimpleCons(g, c, t, visited, p);
      PathsViaMembers(g, g[c], t, visited + {c}, p[1..]);
    }
  }

  lemma PrependMembers(c: Node, ps: seq<seq<Node>>, p: seq<Node>)
    ensures p in Prepend(c, ps) <==> |p| >= 1 && p[0] == c && p[1..] in ps
  {
    if |p| >= 1 && p[0] == c && p[1..] in ps {
      var i :| 0 <= i < |ps| && ps[i] == p[1..];
      assert p == [c] + p[1..];
      assert Prepend(c, ps)[i] == p;
    }
    if p in Prepend(c, ps) {
      var i :| 0 <= i < |ps| && Prepend(c, ps)[i] == p;
      assert ps[i] == p[1..];
    }
  }

  lemma {:induction false} PathsViaMembers(g: Graph, ns: seq<Node>, t: Node, visited: set<Node>, q: seq<Node>)
    ensures q in PathsVia(g, ns, t, visited) <==>
      |q| >= 1 && q[0] in ns && SimplePath(g, t, visited, q)
    decreases |g.Keys - visited|, 1, |ns|, 0
  {
    if ns != [] {
      var init, n := ns[..|ns| - 1], ns[|ns| - 1];
      var front := PathsVia(g, init, t, visited);
      var back := if n in visited then [] else Paths(g, n, t, visited);
      assert PathsVia(g, ns, t, visited) == front + back;
      PathsViaMembers(g, init, t, visited, q);
      if n !in visited {
        PathsMembers(g, n, t, visited, q);
      }
      if q in front + back {
        if q !in front {
          assert q in back;
        }
      }
      if |q| >= 1 && q[0] in ns && SimplePath(g, t, visited, q) {
        if q[0] !in init {
          assert ns == init + [n];
          assert q in back;
        }
      }
    }
  }

  /** The paths through the first `k + 1` outputs: those through the first `k`, then those from output `k`. */
  lemma ViaSnoc(g: Graph, ns: seq<Node>, k: nat, t: Node, visited: set<Node>)
    requires k < |ns|
    ensures PathsVia(g, ns[..k + 1], t, visited) ==
      PathsVia(g, ns[..k], t, visited) + (if ns[k] in visited then [] else Paths(g, ns[k], t, visited))
  {
    assert ns[..k + 1][..k] == ns[..k];
  }

  /** No device lists the same output twice. */
  predicate DistinctOutputs(g: Graph) {
    forall u, i, j :: u in g && 0 <= i < j < |g[u]| ==> g[u][i] != g[u][j]
  }

  predicate Distinct<T(==)>(s: seq<T>) {
    forall i, j :: 0 <= i < j < |s| ==> s[i] != s[j]
  }

  /** Without repeated outputs, the enumeration lists each simple path once. */
  lemma {:induction false} PathsDistinct(g: Graph, c: Node, t: Node, visited: set<Node>)
    requires c !in visited && DistinctOutputs(g)
    ensures Distinct(Paths(g, c, t, visited))
    decreases |g.Keys - visited|, 0
  {
    if c != t && c in g {
      MarkShrinks(g.Keys, visited, c);
      var ps := PathsVia(g, g[c], t, visited + {c});
      PathsViaDistinct(g, g[c], t, visited + {c});
      forall i, j | 0 <= i < j < |ps|
        ensures Prepend(c, ps)[i] != Prepend(c, ps)[j]
      {
        assert ([c] + ps[i])[1..] == ps[i] && ([c] + ps[j])[1..] == ps[j];
      }
    }
  }

  lemma {:induction false} PathsViaDistinct(g: Graph, ns: seq<Node>, t: Node, visited: set<Node>)
    requires Distinct(ns) && DistinctOutputs(g)
    ensures Distinct(PathsVia(g, ns, t, visited))
    decreases |g.Keys - visited|, 1, |ns|
  {
    if ns != [] {
      var init, n := ns[..|ns| - 1], ns[|ns| - 1];
      var front := PathsVia(g, init, t, visited);
      PathsViaDistinct(g, init, t, visited);
      if n !in visited {
        var back := Paths(g, n, t, visited);
        PathsDistinct(g, n, t, visited);
        forall i, j | 0 <= i < |front| && 0 <= j < |back|
          ensures front[i] != back[j]
        {
          assert front[i] in front && back[j] in back;
          assert front[i][0] in init;
        }
        DistinctAppend(front, back);
      }
    }
  }

  lemma DistinctAppend<T>(a: seq<T>, b: seq<T>)
    requires Distinct(a) && Distinct(b)
    requires forall i, j :: 0 <= i < |a| && 0 <= j < |b| ==> a[i] != b[j]
    ensures Distinct(a + b)
  {
    forall i, j | 0 <= i < j < |a + b|
      ensures (a + b)[i] != (a + b)[j]
    {
      if j < |a| {
      } else if i >= |a| {
        assert (a + b)[i] == b[i - |a|] && (a + b)[j] == b[j - |a|];
      } else {
        assert (a + b)[j] == b[j - |a|];
      }
    }
  }

  // ---------------------------------------------------------------------
  // The required devices of part 2
  // ---------------------------------------------------------------------

  /** The bit a device sets in the state: 1 for "dac", 2 for "fft". */
  function Next(node: Node, state: bv8): (s: bv8)
    ensures s & state == state
  {
    if node == "dac" then state | 1
    else if node == "fft" then state | 2
    else state
  }

  /** The state on arriving at the end of `p` from the state at its start. */
  function Final(state: bv8, p: seq<Node>): bv8
    decreases |p|
  {
    if |p| <= 1 then state else Final(Next(p[0], state), p[1..])
  }

  /** The bits for the required devices present in `ns`. */
  function Seen(ns: seq<Node>): bv8 {
    (if "dac" in ns then 1 else 0) | (if "fft" in ns then 2 else 0)
  }

  /** A device's bit is or-ed into the state. */
  lemma NextIsOr(node: Node, state: bv8)
    ensures Next(node, state) == state | Seen([node])
  {
  }

  lemma SeenCons(node: Node, ns: seq<Node>)
    ensures Seen([node] + ns) == Seen([node]) | Seen(ns)
  {
    assert "dac" in [node] + ns <==> "dac" in [node] || "dac" in ns;
    assert "fft" in [node] + ns <==> "fft" in [node] || "fft" in ns;
  }

  /** The final state is the start state with the bits of every device before the end. */
  lemma {:induction false} FinalSeen(state: bv8, p: seq<Node>)
    requires |p| >= 1
    ensures Final(state, p) == state | Seen(p[..|p| - 1])
    decreases |p|
  {
    if |p| > 1 {
      var next := Next(p[0], state);
      FinalSeen(next, p[1..]);
      var after := p[1..][..|p| - 2];
      assert p[..|p| - 1] == [p[0]] + after;
      NextIsOr(p[0], state);
      SeenCons(p[0], after);
      OrAssoc(state, Seen([p[0]]), Seen(after));
    } else {
      assert p[..0] == [];
    }
  }

  lemma OrAssoc(a: bv8, b: bv8, c: bv8)
    ensures (a | b) | c == a | (b | c)
  {
  }

  /** The state only gains bits and stays within 0..3. */
  lemma StateBounds(state: bv8, p: seq<Node>)
    requires |p| >= 1 && state < 4
    ensures Final(state, p) & state == state && Final(state, p) < 4
  {
    FinalSeen(state, p);
  }

  /** From state 0 a path ends in state 3 exactly when it passes through both "dac" and "fft". */
  lemma BothRequired(p: seq<Node>)
    requires |p| >= 1
    ensures Final(0, p) == 3 <==> "dac" in p[..|p| - 1] && "fft" in p[..|p| - 1]
  {
    FinalSeen(0, p);
  }

  /** The number of paths that end in state 3. */
  function Through(ps: seq<seq<Node>>, state: bv8): (n: nat)
    ensures n <= |ps|
  {
    if ps == [] then 0
    else Through(ps[..|ps| - 1], state) + (if Final(state, ps[|ps| - 1]) == 3 then 1 else 0)
  }

  lemma {:induction false} ThroughAppend(ps: seq<seq<Node>>, qs: seq<seq<Node>>, state: bv8)
    ensures Through(ps + qs, state) == Through(ps, state) + Through(qs, state)
    decreases |qs|
  {
    if qs == [] {
      assert ps + qs == ps;
    } else {
      var init := qs[..|qs| - 1];
      ThroughAppend(ps, init, state);
      assert (ps + qs)[..|ps + qs| - 1] == ps + init;
    }
  }

  /** Prepending a device applies its bit first. */
  lemma {:induction false} ThroughPrepend(c: Node, ps: seq<seq<Node>>, state: bv8)
    requires forall p {:trigger p in ps} :: p in ps ==> |p| >= 1
    ensures Through(Prepend(c, ps), state) == Through(ps, Next(c, state))
    decreases |ps|
  {
    if ps != [] {
      var init := ps[..|ps| - 1];
      assert forall p :: p in init ==> p in ps;
      assert ps[|ps| - 1] in ps;
      ThroughPrepend(c, init, state);
      assert Prepend(c, ps)[..|ps| - 1] == Prepend(c, init);
      var last := [c] + ps[|ps| - 1];
      assert last[1..] == ps[|ps| - 1];
    }
  }

  // ---------------------------------------------------------------------
  // Acyclic graphs
  // ---------------------------------------------------------------------

  /** `rank` strictly decreases along every listed output, so the graph has no cycle. */
  ghost predicate Acyclic(g: Graph, rank: Node -> nat) {
    forall u, i :: u in g && 0 <= i < |g[u]| ==> rank(g[u][i]) < rank(u)
  }

  /** Every marked device ranks above `c`, so none of them is reachable from it. */
  ghost predicate Above(rank: Node -> nat, visited: set<Node>, c: Node) {
    forall v :: v in visited ==> rank(c) < rank(v)
  }

  /** On an acyclic graph the paths from `c` do not depend on which devices above it are marked. */
  lemma {:induction false} AcyclicPaths(g: Graph, rank: Node -> nat, c: Node, t: Node, v1: set<Node>, v2: set<Node>)
    requires Acyclic(g, rank) && c !in v1 && c !in v2 && Above(rank, v1, c) && Above(rank, v2, c)
    ensures Paths(g, c, t, v1) == Paths(g, c, t, v2)
    decreases rank(c), 1
  {
    if c != t && c in g {
      AcyclicPathsVia(g, rank, g[c], t, v1 + {c}, v2 + {c}, rank(c));
    }
  }

  lemma {:induction false} AcyclicPathsVia(g: Graph, rank: Node -> nat, ns: seq<Node>, t: Node,
                                            v1: set<Node>, v2: set<Node>, bound: nat)
    requires Acyclic(g, rank)
    requires forall k :: 0 <= k < |ns| ==> rank(ns[k]) < bound
    requires forall v :: v in v1 + v2 ==> bound <= rank(v)
    ensures PathsVia(g, ns, t, v1) == PathsVia(g, ns, t, v2)
    decreases bound, 0, |ns|
  {
    if ns != [] {
      var n := ns[|ns| - 1];
      AcyclicPathsVia(g, rank, ns[..|ns| - 1], t, v1, v2, bound);
      assert n !in v1 && n !in v2;
      AcyclicPaths(g, rank, n, t, v1, v2);
    }
  }

  /** Every memo entry is the number of paths through both devices from its device and state. */
  ghost predicate MemoSound(g: Graph, t: Node, memo: map<(Node, bv8), nat>) {
    forall k {:trigger memo[k]} :: k in memo ==> memo[k] == Through(Paths(g, k.0, t, {}), k.1)
  }

  /** Entries are only added, never changed. */
  ghost predicate MemoGrows(before: map<(Node, bv8), nat>, after: map<(Node, bv8), nat>) {
    forall k :: k in before ==> k in after && after[k] == before[k]
  }

  // ---------------------------------------------------------------------
  // The two searches
  // ---------------------------------------------------------------------

  /** The marked devices and the memo table shared by the recursive calls of a search. */
  class Search {
    var visited: set<Node>
    var memo: map<(Node, bv8), nat>

    constructor()
      ensures visited == {} && memo == map[]
    {
      visited := {};
      memo := map[];
    }

    /** `count_paths_dfs`: the number of simple paths, with the marks restored on return. */
    method CountPaths(g: Graph, current: Node, target: Node) returns (count: nat)
      requires current !in visited
      modifies this
      decreases |g.Keys - visited|
      ensures visited == old(visited) && memo == old(memo)
      ensures count == |Paths(g, current, target, old(visited))|
    {
      if current == target {
        return 1;
      }
      if current !in g {
        return 0;
      }
      var neighbors := g[current];
      MarkShrinks(g.Keys, visited, current);
      visited := visited + {current};
      count := 0;
      for k := 0 to |neighbors|
        invariant visited == old(visited) + {current} && memo == old(memo)
        invariant count == |PathsVia(g, neighbors[..k], target, visited)|
      {
        var neighbor := neighbors[k];
        ViaSnoc(g, neighbors, k, target, visited);
        if neighbor !in visited {
          var c := CountPaths(g, neighbor, target);
          count := count + c;
        }
      }
      assert neighbors[..|neighbors|] == neighbors;
      visited := visited - {current};
    }

    /**
     * `count_paths_memoized`: the marks are restored and memo entries are
     * only added; on an acyclic graph, with a sound memo, the count is the
     * number of paths that end in state 3 and the memo stays sound.
     */
    method CountPathsMemo(g: Graph, current: Node, target: Node, state: bv8, ghost rank: Node -> nat)
      returns (count: nat)
      requires current !in visited
      modifies this
      decreases |g.Keys - visited|, 1
      ensures visited == old(visited) && MemoGrows(old(memo), memo)
      ensures NewKeysOutside(old(memo), memo, old(visited))
      ensures current != target && current in g ==> (current, state) in memo && memo[(current, state)] == count
      ensures Acyclic(g, rank) && MemoSound(g, target, old(memo)) && Above(rank, old(visited), current) ==>
        count == Through(Paths(g, current, target, old(visited)), state) && MemoSound(g, target, memo)
    {
      if current == target {
        return if state == 3 then 1 else 0;
      }
      if current !in visited {
        if (current, state) in memo {
          count := memo[(current, state)];
          if Acyclic(g, rank) && MemoSound(g, target, memo) && Above(rank, visited, current) {
            AcyclicPaths(g, rank, current, target, visited, {});
          }
          return;
        }
      }
      if current !in g {
        return 0;
      }
      count := Expand(g, current, target, state, rank);
    }

    /**
     * The work of `count_paths_memoized` past its early returns: mark
     * `current`, add up its outputs, unmark it and remember the count.
     */
    method Expand(g: Graph, current: Node, target: Node, state: bv8, ghost rank: Node -> nat)
      returns (count: nat)
      requires current !in visited && current != target && current in g && (current, state) !in memo
      modifies this
      decreases |g.Keys - visited|, 0
      ensures visited == old(visited) && MemoGrows(old(memo), memo)
      ensures NewKeysOutside(old(memo), memo, old(visited))
      ensures (current, state) in memo && memo[(current, state)] == count
      ensures Acyclic(g, rank) && MemoSound(g, target, old(memo)) && Above(rank, old(visited), current) ==>
        count == Through(Paths(g, current, target, old(visited)), state) && MemoSound(g, target, memo)
    {
      ghost var sound := Acyclic(g, rank) && MemoSound(g, target, memo) && Above(rank, visited, current);
      MarkShrinks(g.Keys, visited, current);
      visited := visited + {current};
      var newState := Next(current, state);
      count := CountNeighbors(g, current, target, newState, rank, old(visited));
      if sound {
        ThroughPrepend(current, PathsVia(g, g[current], target, visited), state);
      }
      visited := visited - {current};
      assert visited == old(visited);
      if current !in visited {
        if sound {
          AcyclicPaths(g, rank, current, target, visited, {});
        }
        MemoAdd(old(memo), memo, (current, state), count, visited);
        memo := memo[(current, state) := count];
      }
    }

    /** The loop over the outputs of the marked `current`, adding up the counts from the unmarked ones. */
    method CountNeighbors(g: Graph, current: Node, target: Node, newState: bv8, ghost rank: Node -> nat,
                          ghost outside: set<Node>)
      returns (count: nat)
      requires current in g && current !in outside && visited == outside + {current}
      modifies this
      decreases |g.Keys - visited|, 2
      ensures visited == old(visited) && MemoGrows(old(memo), memo)
      ensures NewKeysOutside(old(memo), memo, visited)
      ensures Acyclic(g, rank) && MemoSound(g, target, old(memo)) && Above(rank, outside, current) ==>
        count == Through(PathsVia(g, g[current], target, visited), newState) && MemoSound(g, target, memo)
    {
      ghost var sound := Acyclic(g, rank) && MemoSound(g, target, memo) && Above(rank, outside, current);
      var neighbors := g[current];
      count := 0;
      for k := 0 to |neighbors|
        invariant visited == old(visited)
        invariant MemoGrows(old(memo), memo) && NewKeysOutside(old(memo), memo, visited)
        invariant sound ==> MemoSound(g, target, memo)
        invariant sound ==> count == Through(PathsVia(g, neighbors[..k], target, visited), newState)
      {
        var neighbor := neighbors[k];
        ViaSnoc(g, neighbors, k, target, visited);
        if neighbor !in visited {
          if sound {
            AboveStep(g, rank, outside, current, k);
          }
          ghost var before := PathsVia(g, neighbors[..k], target, visited);
          ghost var memoBefore := memo;
          var c := CountPathsMemo(g, neighbor, target, newState, rank);
          MemoChain(old(memo), memoBefore, memo, visited);
          if sound {
            ThroughAppend(before, Paths(g, neighbor, target, visited), newState);
          }
          count := count + c;
        } else {
          assert PathsVia(g, neighbors[..k], target, visited) + [] == PathsVia(g, neighbors[..k], target, visited);
        }
      }
      assert neighbors[..|neighbors|] == neighbors;
    }
  }

  /** Every key added between `before` and `after` names an unmarked device. */
  ghost predicate NewKeysOutside(before: map<(Node, bv8), nat>, after: map<(Node, bv8), nat>, visited: set<Node>) {
    forall k {:trigger k in after} :: k in after && k !in before ==> k.0 !in visited
  }

  /** The two memo facts of a recursive call compose with those of the loop so far. */
  lemma MemoChain(start: map<(Node, bv8), nat>, mid: map<(Node, bv8), nat>, end: map<(Node, bv8), nat>, visited: set<Node>)
    requires MemoGrows(start, mid) && MemoGrows(mid, end)
    requires NewKeysOutside(start, mid, visited) && NewKeysOutside(mid, end, visited)
    ensures MemoGrows(start, end) && NewKeysOutside(start, end, visited)
  {
  }

  /** Adding the entry of the device just finished keeps the memo facts. */
  lemma MemoAdd(start: map<(Node, bv8), nat>, mid: map<(Node, bv8), nat>, key: (Node, bv8), v: nat, visited: set<Node>)
    requires MemoGrows(start, mid) && NewKeysOutside(start, mid, visited + {key.0})
    requires key !in start && key.0 !in visited
    ensures key !in mid
    ensures MemoGrows(start, mid[key := v]) && NewKeysOutside(start, mid[key := v], visited)
  {
  }

  /** On an acyclic graph an output of `current` ranks below every marked device once `current` is marked. */
  lemma AboveStep(g: Graph, rank: Node -> nat, visited: set<Node>, current: Node, k: nat)
    requires Acyclic(g, rank) && Above(rank, visited, current) && current in g && k < |g[current]|
    ensures Above(rank, visited + {current}, g[current][k])
  {
  }

  // ---------------------------------------------------------------------
  // The two parts
  // ---------------------------------------------------------------------

  /** Part 1: the simple paths from "you" to "out". */
  method Part1(lines: seq<string>) returns (r: Result<nat, ParseError>)
    ensures ParseGraph(lines).Err? ==> r == Err(ParseGraph(lines).error)
    ensures ParseGraph(lines).Ok? ==> r == Ok(|Paths(ParseGraph(lines).value, "you", "out", {})|)
  {
    match ParseGraph(lines)
    case Err(e) => r := Err(e);
    case Ok(g) =>
      var search := new Search();
      var count := search.CountPaths(g, "you", "out");
      r := Ok(count);
  }

  /**
   * Part 2: the paths from "svr" to "out" through both "dac" and "fft",
   * correct whenever the graph is acyclic.
   */
  method Part2(lines: seq<string>) returns (r: Result<nat, ParseError>)
    ensures ParseGraph(lines).Err? ==> r == Err(ParseGraph(lines).error)
    ensures ParseGraph(lines).Ok? ==> r.Ok?
    ensures ParseGraph(lines).Ok? && (exists rank :: Acyclic(ParseGraph(lines).value, rank)) ==>
      r == Ok(Through(Paths(ParseGraph(lines).value, "svr", "out", {}), 0))
  {
    match ParseGraph(lines)
    case Err(e) => r := Err(e);
    case Ok(g) =>
      ghost var rank: Node -> nat := n => 0;
      if exists rk :: Acyclic(g, rk) {
        rank :| Acyclic(g, rank);
      }
      var search := new Search();
      var count := search.CountPathsMemo(g, "svr", "out", 0, rank);
      r := Ok(count);
  }

  // ---------------------------------------------------------------------
  // The examples
  // ---------------------------------------------------------------------

  /** The paths through a device with one unmarked output; `w` is `visited` with `c` marked. */
  lemma OneOutput(g: Graph, c: Node, n: Node, t: Node, visited: set<Node>, w: set<Node>)
    requires c != t && c in g && g[c] == [n] && c !in visited && w == visited + {c} && n !in w
    ensures Paths(g, c, t, visited) == Prepend(c, Paths(g, n, t, w))
  {
    ViaOne(g, n, t, w);
    assert Paths(g, c, t, visited) == Prepend(c, PathsVia(g, g[c], t, w));
  }

  lemma ViaOne(g: Graph, n: Node, t: Node, w: set<Node>)
    requires n !in w
    ensures PathsVia(g, [n], t, w) == Paths(g, n, t, w)
  {
    assert [n][..0] == [];
    assert PathsVia(g, [], t, w) == [];
    assert PathsVia(g, [n], t, w) == [] + Paths(g, n, t, w);
  }

  /** The paths through a device with two unmarked outputs. */
  lemma TwoOutputs(g: Graph, c: Node, m: Node, n: Node, t: Node, visited: set<Node>, w: set<Node>)
    requires c != t && c in g && g[c] == [m, n] && c !in visited && w == visited + {c} && m !in w && n !in w
    ensures Paths(g, c, t, visited) == Prepend(c, Paths(g, m, t, w) + Paths(g, n, t, w))
  {
    ViaTwo(g, m, n, t, w);
    assert Paths(g, c, t, visited) == Prepend(c, PathsVia(g, g[c], t, w));
  }

  lemma ViaTwo(g: Graph, m: Node, n: Node, t: Node, w: set<Node>)
    requires m !in w && n !in w
    ensures PathsVia(g, [m, n], t, w) == Paths(g, m, t, w) + Paths(g, n, t, w)
  {
    assert [m, n][..1] == [m];
    ViaOne(g, m, t, w);
  }

  /** The paths through a device with three unmarked outputs. */
  lemma ThreeOutputs(g: Graph, c: Node, l: Node, m: Node, n: Node, t: Node, visited: set<Node>, w: set<Node>)
    requires c != t && c in g && g[c] == [l, m, n] && c !in visited && w == visited + {c}
    requires l !in w && m !in w && n !in w
    ensures Paths(g, c, t, visited) == Prepend(c, Paths(g, l, t, w) + Paths(g, m, t, w) + Paths(g, n, t, w))
  {
    assert [l, m, n][..2] == [l, m];
    ViaTwo(g, l, m, t, w);
    assert PathsVia(g, [l, m, n], t, w) == PathsVia(g, [l, m], t, w) + Paths(g, n, t, w);
    assert Paths(g, c, t, visited) == Prepend(c, PathsVia(g, g[c], t, w));
  }

  /** A device whose one output is the target has one path. */
  lemma IntoTarget(g: Graph, c: Node, t: Node, visited: set<Node>)
    requires c != t && c in g && g[c] == [t] && c !in visited && t !in visited
    ensures Paths(g, c, t, visited) == [[c, t]]
  {
    OneOutput(g, c, t, t, visited, visited + {c});
    assert Prepend(c, [[t]])[0] == [c, t];
  }

  lemma CollectPrefix(entries: seq<(Node, seq<Node>)>, k: nat)
    requires k < |entries|
    ensures Collect(entries[..k + 1]) == Collect(entries[..k])[entries[k].0 := entries[k].1]
  {
    assert entries[..k + 1][..k] == entries[..k];
  }

  function Example(): seq<(Node, seq<Node>)> {
    [("aaa", ["you", "hhh"]), ("you", ["bbb", "ccc"]), ("bbb", ["ddd", "eee"]), ("ccc", ["ddd", "eee", "fff"]),
     ("ddd", ["ggg"]), ("eee", ["out"]), ("fff", ["out"]), ("ggg", ["out"]), ("hhh", ["ccc", "fff", "iii"]),
     ("iii", ["out"])]
  }

  function ExampleGraph(): Graph {
    map["aaa" := ["you", "hhh"], "you" := ["bbb", "ccc"], "bbb" := ["ddd", "eee"], "ccc" := ["ddd", "eee", "fff"],
        "ddd" := ["ggg"], "eee" := ["out"], "fff" := ["out"], "ggg" := ["out"], "hhh" := ["ccc", "fff", "iii"],
        "iii" := ["out"]]
  }

  /** The example graph lists the outputs the tests expect. */
  lemma ExampleOutputs()
    ensures var g := ExampleGraph();
      && "you" in g && g["you"] == ["bbb", "ccc"] && "bbb" in g && g["bbb"] == ["ddd", "eee"]
      && "ccc" in g && g["ccc"] == ["ddd", "eee", "fff"] && "ddd" in g && g["ddd"] == ["ggg"]
      && "eee" in g && g["eee"] == ["out"] && "fff" in g && g["fff"] == ["out"]
      && "ggg" in g && g["ggg"] == ["out"]
  {
  }

  /** Collecting the example's entries gives the example graph. */
  lemma ExampleCollects()
    ensures ExampleGraph() == Collect(Example())
  {
    var e := Example();
    CollectPrefix(e, 0);
    CollectPrefix(e, 1);
    CollectPrefix(e, 2);
    CollectPrefix(e, 3);
    CollectPrefix(e, 4);
    CollectPrefix(e, 5);
    CollectPrefix(e, 6);
    CollectPrefix(e, 7);
    CollectPrefix(e, 8);
    CollectPrefix(e, 9);
    assert e[..0] == [] && e[..10] == e;
  }

  /** The example input of the tests, line by line. */
  function ExampleLines(): seq<string> {
    ["aaa: you hhh", "you: bbb ccc", "bbb: ddd eee", "ccc: ddd eee fff", "ddd: ggg", "eee: out", "fff: out",
     "ggg: out", "hhh: ccc fff iii", "iii: out"]
  }

  /** The `k`-th written line is the `k`-th entry's. */
  lemma {:induction false} ShowLinesAt(entries: seq<(Node, seq<Node>)>, k: nat)
    requires Showable(entries) && k < |entries|
    ensures ShowLines(entries)[k] == ShowLine(entries[k].0, entries[k].1)
  {
    var init := entries[..|entries| - 1];
    assert Showable(init);
    if k < |init| {
      ShowLinesAt(init, k);
    }
  }

  lemma JoinTwo(a: string, b: string)
    ensures Join([a, b], ' ') == a + " " + b
  {
    assert [a, b][1..] == [b];
  }

  lemma JoinThree(a: string, b: string, c: string)
    ensures Join([a, b, c], ' ') == a + " " + b + " " + c
  {
    assert [a, b, c][1..] == [b, c];
    JoinTwo(b, c);
  }

  lemma ExampleLinesHead(k: nat)
    requires k < 5
    ensures ShowLine(Example()[k].0, Example()[k].1) == ExampleLines()[k]
  {
    JoinTwo("you", "hhh");
    JoinTwo("bbb", "ccc");
    JoinTwo("ddd", "eee");
    JoinThree("ddd", "eee", "fff");
  }

  lemma ExampleLinesTail(k: nat)
    requires 5 <= k < 10
    ensures ShowLine(Example()[k].0, Example()[k].1) == ExampleLines()[k]
  {
    JoinThree("ccc", "fff", "iii");
  }

  lemma ExampleShowable()
    ensures Showable(Example())
  {
  }

  /** The example's lines are its entries written out. */
  lemma ExampleShows()
    ensures Showable(Example()) && ShowLines(Example()) == ExampleLines()
  {
    var e := Example();
    ExampleShowable();
    forall k | 0 <= k < |e|
      ensures ShowLines(e)[k] == ExampleLines()[k]
    {
      ShowLinesAt(e, k);
      if k < 5 {
        ExampleLinesHead(k);
      } else {
        ExampleLinesTail(k);
      }
    }
  }

  /** The example input parses to the example graph. */
  lemma ExampleParses()
    ensures ParseGraph(ExampleLines()) == Ok(ExampleGraph())
  {
    ExampleShows();
    ParseShowLines(Example());
    ExampleCollects();
  }

  lemma ExampleFromBbb()
    ensures |Paths(ExampleGraph(), "bbb", "out", {"you"})| == 2
  {
    var g := ExampleGraph();
    ExampleOutputs();
    var v1, v2, v3: set<Node> := {"you"}, {"you", "bbb"}, {"you", "bbb", "ddd"};
    IntoTarget(g, "ggg", "out", v3);
    OneOutput(g, "ddd", "ggg", "out", v2, v3);
    IntoTarget(g, "eee", "out", v2);
    TwoOutputs(g, "bbb", "ddd", "eee", "out", v1, v2);
  }

  lemma ExampleFromCcc()
    ensures |Paths(ExampleGraph(), "ccc", "out", {"you"})| == 3
  {
    var g := ExampleGraph();
    ExampleOutputs();
    var v1, v4, v5: set<Node> := {"you"}, {"you", "ccc"}, {"you", "ccc", "ddd"};
    IntoTarget(g, "ggg", "out", v5);
    OneOutput(g, "ddd", "ggg", "out", v4, v5);
    IntoTarget(g, "eee", "out", v4);
    IntoTarget(g, "fff", "out", v4);
    ThreeOutputs(g, "ccc", "ddd", "eee", "fff", "out", v1, v4);
  }

  /** Five paths lead from "you" to "out" in the example. */
  lemma ExamplePart1()
    ensures |Paths(ExampleGraph(), "you", "out", {})| == 5
  {
    ExampleOutputs();
    ExampleFromBbb();
    ExampleFromCcc();
    TwoOutputs(ExampleGraph(), "you", "bbb", "ccc", "out", {}, {"you"});
  }

  /** Lines that write out the entries one by one parse to the collected entries. */
  lemma WrittenLines(entries: seq<(Node, seq<Node>)>, lines: seq<string>)
    requires Showable(entries) && |lines| == |entries|
    requires forall k :: 0 <= k < |entries| ==> ShowLine(entries[k].0, entries[k].1) == lines[k]
    ensures ParseGraph(lines) == Ok(Collect(entries))
  {
    forall k | 0 <= k < |entries|
      ensures ShowLines(entries)[k] == lines[k]
    {
      ShowLinesAt(entries, k);
    }
    ParseShowLines(entries);
  }

  /** "you: out" parses to one device. */
  lemma SimplePathParses()
    ensures ParseGraph(["you: out"]) == Ok(map["you" := ["out"]])
  {
    var e := [("you", ["out"])];
    assert ShowLine("you", ["out"]) == "you: out";
    WrittenLines(e, ["you: out"]);
    CollectPrefix(e, 0);
    assert e[..0] == [];
  }

  /** One path leads from "you" straight to "out". */
  lemma SimplePathExample()
    ensures |Paths(map["you" := ["out"]], "you", "out", {})| == 1
  {
    IntoTarget(map["you" := ["out"]], "you", "out", {});
  }

  function NoPathEntries(): seq<(Node, seq<Node>)> {
    [("you", ["bbb"]), ("bbb", ["ccc"])]
  }

  lemma NoPathLines()
    ensures ParseGraph(["you: bbb", "bbb: ccc"]) == Ok(Collect(NoPathEntries()))
  {
    assert ShowLine("you", ["bbb"]) == "you: bbb";
    assert ShowLine("bbb", ["ccc"]) == "bbb: ccc";
    WrittenLines(NoPathEntries(), ["you: bbb", "bbb: ccc"]);
  }

  /** "you: bbb" and "bbb: ccc" parse to a chain that never reaches "out". */
  lemma NoPathParses()
    ensures ParseGraph(["you: bbb", "bbb: ccc"]) == Ok(map["you" := ["bbb"], "bbb" := ["ccc"]])
  {
    var e := NoPathEntries();
    NoPathLines();
    CollectPrefix(e, 0);
    CollectPrefix(e, 1);
    assert e[..0] == [] && e[..2] == e;
  }

  /** No path leads to "out" when nothing lists it. */
  lemma NoPathExample()
    ensures |Paths(map["you" := ["bbb"], "bbb" := ["ccc"]], "you", "out", {})| == 0
  {
    var g := map["you" := ["bbb"], "bbb" := ["ccc"]];
    assert Paths(g, "ccc", "out", {"you", "bbb"}) == [];
    OneOutput(g, "bbb", "ccc", "out", {"you"}, {"you", "bbb"});
    OneOutput(g, "you", "bbb", "out", {}, {"you"});
  }

  function Diamond(): Graph {
    map["you" := ["a", "b"], "a" := ["c"], "b" := ["c"], "c" := ["out"]]
  }

  function DiamondEntries(): seq<(Node, seq<Node>)> {
    [("you", ["a", "b"]), ("a", ["c"]), ("b", ["c"]), ("c", ["out"])]
  }

  function DiamondLines(): seq<string> {
    ["you: a b", "a: c", "b: c", "c: out"]
  }

  lemma DiamondLinesAt(k: nat)
    requires k < 4
    ensures ShowLine(DiamondEntries()[k].0, DiamondEntries()[k].1) == DiamondLines()[k]
  {
    JoinTwo("a", "b");
  }

  lemma DiamondWritten()
    ensures ParseGraph(DiamondLines()) == Ok(Collect(DiamondEntries()))
  {
    forall k | 0 <= k < 4 {
      DiamondLinesAt(k);
    }
    WrittenLines(DiamondEntries(), DiamondLines());
  }

  lemma DiamondCollects()
    ensures Collect(DiamondEntries()) == Diamond()
  {
    var e := DiamondEntries();
    CollectPrefix(e, 0);
    CollectPrefix(e, 1);
    CollectPrefix(e, 2);
    CollectPrefix(e, 3);
    assert e[..0] == [] && e[..4] == e;
  }

  /** The diamond's lines parse to the diamond. */
  lemma DiamondParses()
    ensures ParseGraph(["you: a b", "a: c", "b: c", "c: out"]) == Ok(Diamond())
  {
    DiamondWritten();
    DiamondCollects();
  }

  /** Two paths lead through the two sides of a diamond. */
  lemma DiamondExample()
    ensures |Paths(Diamond(), "you", "out", {})| == 2
  {
    var g := Diamond();
    IntoTarget(g, "c", "out", {"you", "a"});
    OneOutput(g, "a", "c", "out", {"you"}, {"you", "a"});
    IntoTarget(g, "c", "out", {"you", "b"});
    OneOutput(g, "b", "c", "out", {"you"}, {"you", "b"});
    TwoOutputs(g, "you", "a", "b", "out", {}, {"you"});
  }

  // Part two examples, on acyclic graphs where marking does not matter

  /** Reaching the target counts once, when both devices were seen. */
  lemma ThroughTarget(g: Graph, t: Node, state: bv8)
    ensures Through(Paths(g, t, t, {}), state) == if state == 3 then 1 else 0
  {
    assert Paths(g, t, t, {}) == [[t]];
    assert [[t]][..0] == [];
  }

  /** Through a device with one output, on an acyclic graph. */
  lemma ThroughOne(g: Graph, rank: Node -> nat, c: Node, n: Node, t: Node, state: bv8)
    requires Acyclic(g, rank) && c != t && c in g && g[c] == [n]
    ensures Through(Paths(g, c, t, {}), state) == Through(Paths(g, n, t, {}), Next(c, state))
  {
    assert rank(g[c][0]) < rank(c);
    OneOutput(g, c, n, t, {}, {c});
    ThroughPrepend(c, Paths(g, n, t, {c}), state);
    AcyclicPaths(g, rank, n, t, {c}, {});
  }

  /** Through a device with two outputs, on an acyclic graph. */
  lemma ThroughTwo(g: Graph, rank: Node -> nat, c: Node, m: Node, n: Node, t: Node, state: bv8)
    requires Acyclic(g, rank) && c != t && c in g && g[c] == [m, n]
    ensures Through(Paths(g, c, t, {}), state) ==
      Through(Paths(g, m, t, {}), Next(c, state)) + Through(Paths(g, n, t, {}), Next(c, state))
  {
    assert rank(g[c][0]) < rank(c) && rank(g[c][1]) < rank(c);
    TwoOutputs(g, c, m, n, t, {}, {c});
    var pm, pn := Paths(g, m, t, {c}), Paths(g, n, t, {c});
    ThroughPrepend(c, pm + pn, state);
    ThroughAppend(pm, pn, Next(c, state));
    AcyclicPaths(g, rank, m, t, {c}, {});
    AcyclicPaths(g, rank, n, t, {c}, {});
  }

  /** A path through "dac" then "fft". */
  function DacThenFft(): Graph {
    map["svr" := ["dac"], "dac" := ["fft"], "fft" := ["out"]]
  }

  /** A path through "fft" then "dac". */
  function FftThenDac(): Graph {
    map["svr" := ["fft"], "fft" := ["dac"], "dac" := ["out"]]
  }

  /** Ranks for the two-device chains: the start, then the devices by name, then the rest. */
  function ChainRank(first: Node): Node -> nat {
    (n: Node) => if n == "svr" then 3 else if n == first then 2 else if n == "dac" || n == "fft" then 1 else 0
  }

  lemma DacThenFftAcyclic()
    ensures Acyclic(DacThenFft(), ChainRank("dac"))
  {
  }

  lemma FftThenDacAcyclic()
    ensures Acyclic(FftThenDac(), ChainRank("fft"))
  {
  }

  /** The one path of "svr: dac", "dac: fft", "fft: out" passes through both devices. */
  lemma DacThenFftExample()
    ensures Acyclic(DacThenFft(), ChainRank("dac"))
    ensures Through(Paths(DacThenFft(), "svr", "out", {}), 0) == 1
  {
    var g, rank := DacThenFft(), ChainRank("dac");
    DacThenFftAcyclic();
    assert Next("svr", 0) == 0 && Next("dac", 0) == 1 && Next("fft", 1) == 3;
    ThroughOne(g, rank, "svr", "dac", "out", 0);
    ThroughOne(g, rank, "dac", "fft", "out", 0);
    ThroughOne(g, rank, "fft", "out", "out", 1);
    ThroughTarget(g, "out", 3);
  }

  /** The order of the two devices along the path does not matter. */
  lemma FftThenDacExample()
    ensures Acyclic(FftThenDac(), ChainRank("fft"))
    ensures Through(Paths(FftThenDac(), "svr", "out", {}), 0) == 1
  {
    var g, rank := FftThenDac(), ChainRank("fft");
    FftThenDacAcyclic();
    assert Next("svr", 0) == 0 && Next("fft", 0) == 2 && Next("dac", 2) == 3;
    ThroughOne(g, rank, "svr", "fft", "out", 0);
    ThroughOne(g, rank, "fft", "dac", "out", 0);
    ThroughOne(g, rank, "dac", "out", "out", 2);
    ThroughTarget(g, "out", 3);
  }

  /** Without either device no path counts. */
  lemma NeitherExample()
    ensures Acyclic(map["svr" := ["out"]], ChainRank("svr"))
    ensures Through(Paths(map["svr" := ["out"]], "svr", "out", {}), 0) == 0
  {
    var g := map["svr" := ["out"]];
    var rank := ChainRank("svr");
    assert Acyclic(g, rank);
    assert Next("svr", 0) == 0;
    ThroughOne(g, rank, "svr", "out", "out", 0);
    ThroughTarget(g, "out", 0);
  }

  /** A path through "dac" alone does not count. */
  lemma OnlyDacExample()
    ensures Acyclic(map["svr" := ["dac"], "dac" := ["out"]], ChainRank("dac"))
    ensures Through(Paths(map["svr" := ["dac"], "dac" := ["out"]], "svr", "out", {}), 0) == 0
  {
    var g := map["svr" := ["dac"], "dac" := ["out"]];
    var rank := ChainRank("dac");
    assert Acyclic(g, rank);
    assert Next("svr", 0) == 0 && Next("dac", 0) == 1;
    ThroughOne(g, rank, "svr", "dac", "out", 0);
    ThroughOne(g, rank, "dac", "out", "out", 0);
    ThroughTarget(g, "out", 1);
  }

  /** The part two example of the tests. */
  function Part2Example(): Graph {
    map["svr" := ["aaa", "bbb"], "aaa" := ["fft"], "fft" := ["ccc"], "bbb" := ["tty"], "tty" := ["ccc"],
        "ccc" := ["ddd", "eee"], "ddd" := ["hub"], "hub" := ["fff"], "eee" := ["dac"], "dac" := ["fff"],
        "fff" := ["ggg", "hhh"], "ggg" := ["out"], "hhh" := ["out"]]
  }

  /** The outputs the example lists for each device. */
  lemma Part2Outputs()
    ensures var g := Part2Example();
      && "svr" in g && g["svr"] == ["aaa", "bbb"] && "aaa" in g && g["aaa"] == ["fft"]
      && "fft" in g && g["fft"] == ["ccc"] && "bbb" in g && g["bbb"] == ["tty"]
      && "tty" in g && g["tty"] == ["ccc"] && "ccc" in g && g["ccc"] == ["ddd", "eee"]
      && "ddd" in g && g["ddd"] == ["hub"] && "hub" in g && g["hub"] == ["fff"]
      && "eee" in g && g["eee"] == ["dac"] && "dac" in g && g["dac"] == ["fff"]
      && "fff" in g && g["fff"] == ["ggg", "hhh"] && "ggg" in g && g["ggg"] == ["out"]
      && "hhh" in g && g["hhh"] == ["out"]
  {
  }

  /** The number of steps from each device of the example to "out" along its longest path. */
  function Part2Rank(n: Node): nat {
    if n == "svr" then 8
    else if n == "aaa" || n == "bbb" then 7
    else if n == "fft" || n == "tty" then 6
    else if n == "ccc" then 5
    else if n == "ddd" || n == "eee" then 4
    else if n == "hub" || n == "dac" then 3
    else if n == "fff" then 2
    else if n == "ggg" || n == "hhh" then 1
    else 0
  }

  lemma Part2Acyclic()
    ensures Acyclic(Part2Example(), Part2Rank)
  {
    var g := Part2Example();
    forall u, i | u in g && 0 <= i < |g[u]|
      ensures Part2Rank(g[u][i]) < Part2Rank(u)
    {
      Part2Edge(u, i);
    }
  }

  /** Each listed output of the example ranks below its device. */
  lemma Part2Edge(u: Node, i: nat)
    requires u in Part2Example() && i < |Part2Example()[u]|
    ensures Part2Rank(Part2Example()[u][i]) < Part2Rank(u)
  {
    if u in {"svr", "aaa", "fft", "bbb", "tty"} {
      Part2EdgeTop(u, i);
    } else if u in {"ccc", "ddd", "hub", "eee"} {
      Part2EdgeMid(u, i);
    } else if u in {"dac", "fff"} {
      Part2EdgeLow(u, i);
    } else {
      Part2EdgeLast(u, i);
    }
  }

  lemma Part2EdgeTop(u: Node, i: nat)
    requires u in {"svr", "aaa", "fft", "bbb", "tty"} && i < |Part2Example()[u]|
    ensures Part2Rank(Part2Example()[u][i]) < Part2Rank(u)
  {
    var g := Part2Example();
    if u == "svr" {
      assert g[u] == ["aaa", "bbb"];
    } else if u == "aaa" {
      assert g[u] == ["fft"];
    } else if u == "fft" {
      assert g[u] == ["ccc"];
    } else if u == "bbb" {
      assert g[u] == ["tty"];
    } else if u == "tty" {
      assert g[u] == ["ccc"];
    }
  }

  lemma Part2EdgeMid(u: Node, i: nat)
    requires u in {"ccc", "ddd", "hub", "eee"} && i < |Part2Example()[u]|
    ensures Part2Rank(Part2Example()[u][i]) < Part2Rank(u)
  {
    var g := Part2Example();
    if u == "ccc" {
      assert g[u] == ["ddd", "eee"];
    } else if u == "ddd" {
      assert g[u] == ["hub"];
    } else if u == "hub" {
      assert g[u] == ["fff"];
    } else if u == "eee" {
      assert g[u] == ["dac"];
    }
  }

  lemma Part2EdgeLow(u: Node, i: nat)
    requires u in {"dac", "fff"} && i < |Part2Example()[u]|
    ensures Part2Rank(Part2Example()[u][i]) < Part2Rank(u)
  {
    var g := Part2Example();
    if u == "dac" {
      assert g[u] == ["fff"];
    } else if u == "fff" {
      assert g[u] == ["ggg", "hhh"];
    }
  }

  lemma Part2EdgeLast(u: Node, i: nat)
    requires u in {"ggg", "hhh"} && i < |Part2Example()[u]|
    ensures Part2Rank(Part2Example()[u][i]) < Part2Rank(u)
  {
    var g := Part2Example();
    if u == "ggg" {
      assert g[u] == ["out"];
    } else if u == "hhh" {
      assert g[u] == ["out"];
    }
  }

  /** Both ways from "fff" to "out" count exactly when both devices were seen. */
  lemma Part2FromFff(state: bv8)
    requires state < 4
    ensures Through(Paths(Part2Example(), "fff", "out", {}), state) == if state == 3 then 2 else 0
  {
    var g := Part2Example();
    Part2Acyclic();
    Part2Outputs();
    assert Next("fff", state) == state && Next("ggg", state) == state && Next("hhh", state) == state;
    ThroughTwo(g, Part2Rank, "fff", "ggg", "hhh", "out", state);
    ThroughOne(g, Part2Rank, "ggg", "out", "out", state);
    ThroughOne(g, Part2Rank, "hhh", "out", "out", state);
    ThroughTarget(g, "out", state);
  }

  /** The way through "ddd" and "hub" adds no device. */
  lemma Part2FromDdd(state: bv8)
    requires state < 4
    ensures Through(Paths(Part2Example(), "ddd", "out", {}), state) == if state == 3 then 2 else 0
  {
    var g := Part2Example();
    Part2Acyclic();
    Part2Outputs();
    assert Next("ddd", state) == state && Next("hub", state) == state;
    Part2FromFff(state);
    ThroughOne(g, Part2Rank, "hub", "fff", "out", state);
    ThroughOne(g, Part2Rank, "ddd", "hub", "out", state);
  }

  /** The way through "eee" adds "dac". */
  lemma Part2FromEee(state: bv8)
    requires state < 4
    ensures Through(Paths(Part2Example(), "eee", "out", {}), state) == if state | 1 == 3 then 2 else 0
  {
    var g := Part2Example();
    Part2Acyclic();
    Part2Outputs();
    assert Next("eee", state) == state && Next("dac", state) == state | 1 && state | 1 < 4;
    Part2FromFff(state | 1);
    ThroughOne(g, Part2Rank, "dac", "fff", "out", state);
    ThroughOne(g, Part2Rank, "eee", "dac", "out", state);
  }

  /** From "ccc" the two paths count when "fft" was seen before it, and none count otherwise. */
  lemma Part2FromCcc()
    ensures Through(Paths(Part2Example(), "ccc", "out", {}), 2) == 2
    ensures Through(Paths(Part2Example(), "ccc", "out", {}), 0) == 0
  {
    var g := Part2Example();
    Part2Acyclic();
    Part2Outputs();
    assert Next("ccc", 2) == 2 && Next("ccc", 0) == 0;
    Part2FromDdd(2);
    Part2FromEee(2);
    Part2FromDdd(0);
    Part2FromEee(0);
    ThroughTwo(g, Part2Rank, "ccc", "ddd", "eee", "out", 2);
    ThroughTwo(g, Part2Rank, "ccc", "ddd", "eee", "out", 0);
  }

  /** The way through "aaa" sees "fft" before "ccc". */
  lemma Part2FromAaa()
    ensures Through(Paths(Part2Example(), "aaa", "out", {}), 0) == 2
  {
    var g := Part2Example();
    Part2Acyclic();
    Part2Outputs();
    Part2FromCcc();
    assert Next("aaa", 0) == 0 && Next("fft", 0) == 2;
    ThroughOne(g, Part2Rank, "fft", "ccc", "out", 0);
    ThroughOne(g, Part2Rank, "aaa", "fft", "out", 0);
  }

  /** The way through "bbb" and "tty" sees neither device before "ccc". */
  lemma Part2FromBbb()
    ensures Through(Paths(Part2Example(), "bbb", "out", {}), 0) == 0
  {
    var g := Part2Example();
    Part2Acyclic();
    Part2Outputs();
    Part2FromCcc();
    assert Next("bbb", 0) == 0 && Next("tty", 0) == 0;
    ThroughOne(g, Part2Rank, "tty", "ccc", "out", 0);
    ThroughOne(g, Part2Rank, "bbb", "tty", "out", 0);
  }

  /** Of the eight paths from "svr" to "out" in the example, two pass through both devices. */
  lemma Part2ExampleCount()
    ensures Acyclic(Part2Example(), Part2Rank)
    ensures Through(Paths(Part2Example(), "svr", "out", {}), 0) == 2
  {
    Part2Acyclic();
    Part2Outputs();
    Part2FromAaa();
    Part2FromBbb();
    assert Next("svr", 0) == 0;
    ThroughTwo(Part2Example(), Part2Rank, "svr", "aaa", "bbb", "out", 0);
  }
}
