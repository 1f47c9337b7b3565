/**
 The plugin that strips inline JSX from headings: it removes JSX children, keeps a record of
 them for later rendering, and gives the heading a fresh identifier made of its other text.
 */
module HeadingRewriter {
  import opened Wrappers
  import opened HeadingSlugs

  type Properties = map<string, string>

  datatype Node = Node(
    nodeType: string,
    tagName: string,
    name: string,
    value: Option<string>,
    properties: Option<Properties>,
    children: Children)

  datatype Children = NoChildren | Nodes(nodes: seq<Node>)

  datatype Badge = Badge(component: string, text: Option<string>)

  /** Library functions on strings. */
  datatype TextLibrary = TextLibrary(
    slugify: string -> string,
    trim: string -> string,
    stringify: seq<Badge> -> string)

  const HEADING_TAGS := {"h1", "h2", "h3", "h4", "h5", "h6"}
  const BADGES := "data-heading-badges"

  // ---------- Reading a tree ----------

  predicate IsJsx(n: Node) {
    n.nodeType == "mdxJsxTextElement" || n.nodeType == "mdxJsxFlowElement"
  }

  predicate HasJsxChild(n: Node) {
    n.children.Nodes? && exists c :: c in n.children.nodes && IsJsx(c)
  }

  predicate IsHeading(n: Node) {
    n.nodeType == "element" && n.tagName in HEADING_TAGS
  }

  predicate HasId(n: Node) {
    n.properties.Some? && "id" in n.properties.value && n.properties.value["id"] != ""
  }

  predicate IsRewritten(n: Node) {
    HasId(n) && HasJsxChild(n)
  }

  function OwnText(n: Node): string {
    if n.value.Some? then n.value.value else ""
  }

  function AllText(n: Node): string
    decreases n, 0
  {
    match n.children
    case Nodes(nodes) => AllTexts(nodes)
    case NoChildren => OwnText(n)
  }

  function AllTexts(ns: seq<Node>): string
    decreases ns, 1
  {
    if ns == [] then "" else AllText(ns[0]) + AllTexts(ns[1..])
  }

  function CleanText(n: Node): string
    decreases n, 0
  {
    if IsJsx(n) then ""
    else
      match n.children
      case Nodes(nodes) => CleanTexts(nodes)
      case NoChildren => OwnText(n)
  }

  function CleanTexts(ns: seq<Node>): string
    decreases ns, 1
  {
    if ns == [] then "" else CleanText(ns[0]) + CleanTexts(ns[1..])
  }

  // ---------- Rewriting one heading ----------

  function Kept(ns: seq<Node>): seq<Node> {
    if ns == [] then [] else Kept(ns[..|ns| - 1]) + if IsJsx(ns[|ns| - 1]) then [] else [ns[|ns| - 1]]
  }

  function Removed(ns: seq<Node>): seq<Node> {
    if ns == [] then [] else Removed(ns[..|ns| - 1]) + if IsJsx(ns[|ns| - 1]) then [ns[|ns| - 1]] else []
  }

  function BadgeOf(lib: TextLibrary, n: Node): Badge {
    var text := lib.trim(AllText(n));
    Badge(n.name, if text == "" then None else Some(text))
  }

  function Badges(lib: TextLibrary, removed: seq<Node>): seq<Badge> {
    seq(|removed|, i requires 0 <= i < |removed| => BadgeOf(lib, removed[i]))
  }

  /** The slug a heading asks for once its JSX children are gone. */
  function WantedSlug(lib: TextLibrary, n: Node): string
    requires n.children.Nodes?
  {
    lib.slugify(lib.trim(CleanText(n.(children := Nodes(Kept(n.children.nodes))))))
  }

  function Rewrite(lib: TextLibrary, n: Node, taken: Occurrences): (Node, Occurrences) {
    if !HasId(n) then (n, taken)
    else if !HasJsxChild(n) then (n, taken[n.properties.value["id"] := 0])
    else
      var badges := lib.stringify(Badges(lib, Removed(n.children.nodes)));
      var slug := WantedSlug(lib, n);
      (n.(children := Nodes(Kept(n.children.nodes)),
          properties := Some(n.properties.value[BADGES := badges]["id" := SlugFor(taken, slug)])),
       Recorded(taken, slug))
  }

  /** Rewrites a heading and updates the table of slugs. */
  method RewriteHeading(lib: TextLibrary, table: SlugTable, n: Node) returns (n': Node)
    modifies table
    ensures (n', table.occurrences) == Rewrite(lib, n, old(table.occurrences))
  {
    n' := n;
    if !HasId(n) {
      return;
    }
    if !HasJsxChild(n) {
      table.Record(n.properties.value["id"]);
      return;
    }
    var badges: seq<Badge> := [];
    var kept: seq<Node> := [];
    var nodes := n.children.nodes;
    for i := 0 to |nodes|
      invariant badges == Badges(lib, Removed(nodes[..i])) && kept == Kept(nodes[..i])
    {
      assert nodes[..i + 1][..i] == nodes[..i];
      if IsJsx(nodes[i]) {
        var text := lib.trim(AllText(nodes[i]));
        badges := badges + [Badge(nodes[i].name, if text == "" then None else Some(text))];
      } else {
        kept := kept + [nodes[i]];
      }
    }
    assert nodes[..|nodes|] == nodes;
    n' := n'.(children := Nodes(kept));
    n' := n'.(properties := Some(n'.properties.value[BADGES := lib.stringify(badges)]));
    var cleanText := lib.trim(CleanText(n.(children := Nodes(kept))));
    var id := table.UniqueSlug(lib.slugify(cleanText));
    n' := n'.(properties := Some(n'.properties.value["id" := id]));
  }

  // ---------- Visiting the headings of a tree ----------

  function Visit(lib: TextLibrary, t: Node, taken: Occurrences): (Node, Occurrences)
    decreases t, 0
  {
    if IsHeading(t) then Rewrite(lib, t, taken)
    else
      match t.children
      case NoChildren => (t, taken)
      case Nodes(nodes) =>
        var (nodes', taken') := VisitAll(lib, nodes, taken);
        (t.(children := Nodes(nodes')), taken')
  }

  function VisitAll(lib: TextLibrary, ts: seq<Node>, taken: Occurrences): (seq<Node>, Occurrences)
    decreases ts, 1
  {
    if ts == [] then ([], taken)
    else
      var (t', taken') := Visit(lib, ts[0], taken);
      var (rest, taken'') := VisitAll(lib, ts[1..], taken');
      ([t'] + rest, taken'')
  }

  /** The whole plugin: each tree is visited with an empty table. */
  function Transform(lib: TextLibrary, t: Node): Node {
    Visit(lib, t, map[]).0
  }

  method VisitHeadings(lib: TextLibrary, table: SlugTable, t: Node) returns (t': Node)
    modifies table
    ensures (t', table.occurrences) == Visit(lib, t, old(table.occurrences))
    decreases t
  {
    t' := t;
    if IsHeading(t) {
      t' := RewriteHeading(lib, table, t);
      return;
    }
    if t.children.NoChildren? {
      return;
    }
    var nodes := t.children.nodes;
    var done: seq<Node> := [];
    ghost var all := VisitAll(lib, nodes, table.occurrences).0;
    assert nodes[0..] == nodes && done + all == all;
    for i := 0 to |nodes|
      invariant var (rest, taken) := VisitAll(lib, nodes[i..], table.occurrences);
                (done + rest, taken) == VisitAll(lib, nodes, old(table.occurrences))
    {
      ghost var before := table.occurrences;
      var child := VisitHeadings(lib, table, nodes[i]);
      assert nodes[i..][1..] == nodes[i + 1..];
      ghost var rest := VisitAll(lib, nodes[i + 1..], table.occurrences).0;
      assert VisitAll(lib, nodes[i..], before).0 == [child] + rest;
      assert done + ([child] + rest) == (done + [child]) + rest;
      done := done + [child];
    }
    assert nodes[|nodes|..] == [] && done + [] == done;
    t' := t.(children := Nodes(done));
  }

  method StripHeadingJsx(lib: TextLibrary, tree: Node) returns (tree': Node)
    ensures tree' == Transform(lib, tree)
  {
    var table := new SlugTable();
    tree' := VisitHeadings(lib, table, tree);
  }

  // ---------- A second pass changes nothing ----------

  /** No outermost heading that has an identifier still has a JSX child. */
  ghost predicate Settled(t: Node)
    decreases t, 0
  {
    if IsHeading(t) then !IsRewritten(t)
    else t.children.Nodes? ==> AllSettled(t.children.nodes)
  }

  ghost predicate AllSettled(ts: seq<Node>)
    decreases ts, 1
  {
    ts != [] ==> Settled(ts[0]) && AllSettled(ts[1..])
  }

  lemma {:induction false} KeptIsClean(ns: seq<Node>)
    ensures forall c :: c in Kept(ns) ==> c in ns && !IsJsx(c)
    ensures forall c :: c in Removed(ns) ==> c in ns && IsJsx(c)
  {
    if ns != [] {
      KeptIsClean(ns[..|ns| - 1]);
    }
  }

  lemma {:induction false} VisitSettles(lib: TextLibrary, t: Node, taken: Occurrences)
    ensures Settled(Visit(lib, t, taken).0)
    decreases t, 0
  {
    if IsHeading(t) {
      if IsRewritten(t) {
        KeptIsClean(t.children.nodes);
      }
    } else if t.children.Nodes? {
      VisitAllSettles(lib, t.children.nodes, taken);
    }
  }

  lemma {:induction false} VisitAllSettles(lib: TextLibrary, ts: seq<Node>, taken: Occurrences)
    ensures AllSettled(VisitAll(lib, ts, taken).0)
    decreases ts, 1
  {
    if ts != [] {
      VisitSettles(lib, ts[0], taken);
      var (t', taken') := Visit(lib, ts[0], taken);
      VisitAllSettles(lib, ts[1..], taken');
      assert ([t'] + VisitAll(lib, ts[1..], taken').0)[1..] == VisitAll(lib, ts[1..], taken').0;
    }
  }

  lemma {:induction false} SettledIsFixed(lib: TextLibrary, t: Node, taken: Occurrences)
    requires Settled(t)
    ensures Visit(lib, t, taken).0 == t
    decreases t, 0
  {
    if !IsHeading(t) && t.children.Nodes? {
      AllSettledAreFixed(lib, t.children.nodes, taken);
    }
  }

  lemma {:induction false} AllSettledAreFixed(lib: TextLibrary, ts: seq<Node>, taken: Occurrences)
    requires AllSettled(ts)
    ensures VisitAll(lib, ts, taken).0 == ts
    decreases ts, 1
  {
    if ts != [] {
      SettledIsFixed(lib, ts[0], taken);
      AllSettledAreFixed(lib, ts[1..], Visit(lib, ts[0], taken).1);
    }
  }

  /** The plugin is idempotent on every tree. */
  lemma TransformIsIdempotent(lib: TextLibrary, t: Node)
    ensures Transform(lib, Transform(lib, t)) == Transform(lib, t)
  {
    VisitSettles(lib, t, map[]);
    SettledIsFixed(lib, Transform(lib, t), map[]);
  }

  // ---------- What happens to one heading ----------

  /** `whole` consists of the elements of `a` and of `b`, each in its order. */
  ghost predicate Interleaves<T(!new)>(whole: seq<T>, a: seq<T>, b: seq<T>)
    decreases |whole|
  {
    if whole == [] then a == [] && b == []
    else
      || (a != [] && a[|a| - 1] == whole[|whole| - 1] && Interleaves(whole[..|whole| - 1], a[..|a| - 1], b))
      || (b != [] && b[|b| - 1] == whole[|whole| - 1] && Interleaves(whole[..|whole| - 1], a, b[..|b| - 1]))
  }

  lemma {:induction false} ChildrenSplit(ns: seq<Node>)
    ensures Interleaves(ns, Kept(ns), Removed(ns))
  {
    if ns != [] {
      ChildrenSplit(ns[..|ns| - 1]);
      var k, r := Kept(ns), Removed(ns);
      if IsJsx(ns[|ns| - 1]) {
        assert r[..|r| - 1] == Removed(ns[..|ns| - 1]) && k == Kept(ns[..|ns| - 1]);
      } else {
        assert k[..|k| - 1] == Kept(ns[..|ns| - 1]) && r == Removed(ns[..|ns| - 1]);
      }
    }
  }

  lemma {:induction false} CleanTextsSnoc(ns: seq<Node>, last: Node)
    ensures CleanTexts(ns + [last]) == CleanTexts(ns) + CleanText(last)
  {
    if ns == [] {
      assert CleanTexts([last]) == CleanText(last) + CleanTexts([last][1..]);
    } else {
      CleanTextsSnoc(ns[1..], last);
      assert (ns + [last])[1..] == ns[1..] + [last];
      AppendAssociates(CleanText(ns[0]), CleanTexts(ns[1..]), CleanText(last));
    }
  }

  lemma {:induction false} KeptHasTheText(ns: seq<Node>)
    ensures CleanTexts(Kept(ns)) == CleanTexts(ns)
  {
    if ns != [] {
      var front, last := ns[..|ns| - 1], ns[|ns| - 1];
      KeptHasTheText(front);
      assert ns == front + [last];
      CleanTextsSnoc(front, last);
      if IsJsx(last) {
        assert Kept(ns) == Kept(front) && CleanTexts(front) + "" == CleanTexts(front);
      } else {
        CleanTextsSnoc(Kept(front), last);
      }
    }
  }

  // The text of a node, read off a single traversal.

  datatype Leaf = Leaf(text: string, insideJsx: bool)

  /** The leaves below a node in document order. Children hide a value. */
  function Leaves(n: Node, insideJsx: bool): seq<Leaf>
    decreases n, 0
  {
    var inside := insideJsx || n.nodeType == "mdxJsxTextElement" || n.nodeType == "mdxJsxFlowElement";
    match n.children
    case Nodes(nodes) => LeavesOfAll(nodes, inside)
    case NoChildren => if n.value.Some? then [Leaf(n.value.value, inside)] else []
  }

  function LeavesOfAll(ns: seq<Node>, insideJsx: bool): seq<Leaf>
    decreases ns, 1
  {
    if ns == [] then [] else Leaves(ns[0], insideJsx) + LeavesOfAll(ns[1..], insideJsx)
  }

  function TextOf(leaves: seq<Leaf>, withJsx: bool): string {
    if leaves == [] then ""
    else (if leaves[0].insideJsx && !withJsx then "" else leaves[0].text) + TextOf(leaves[1..], withJsx)
  }

  lemma {:induction false} TextOfAppend(a: seq<Leaf>, b: seq<Leaf>, withJsx: bool)
    ensures TextOf(a + b, withJsx) == TextOf(a, withJsx) + TextOf(b, withJsx)
  {
    if a == [] {
      assert a + b == b;
    } else {
      TextOfAppend(a[1..], b, withJsx);
      assert (a + b)[1..] == a[1..] + b;
      var first := if a[0].insideJsx && !withJsx then "" else a[0].text;
      AppendAssociates(first, TextOf(a[1..], withJsx), TextOf(b, withJsx));
    }
  }

  lemma {:induction false} HiddenLeaves(n: Node)
    ensures TextOf(Leaves(n, true), false) == ""
    decreases n, 0
  {
    if n.children.Nodes? {
      AllHiddenLeaves(n.children.nodes);
    }
  }

  lemma {:induction false} AllHiddenLeaves(ns: seq<Node>)
    ensures TextOf(LeavesOfAll(ns, true), false) == ""
    decreases ns, 1
  {
    if ns != [] {
      HiddenLeaves(ns[0]);
      AllHiddenLeaves(ns[1..]);
      TextOfAppend(Leaves(ns[0], true), LeavesOfAll(ns[1..], true), false);
    }
  }

  /** Flattening a node joins all its leaves; without JSX it joins those that no JSX element contains. */
  lemma {:induction false} TextsAreLeaves(n: Node, insideJsx: bool)
    ensures AllText(n) == TextOf(Leaves(n, insideJsx), true)
    ensures CleanText(n) == TextOf(Leaves(n, false), false)
    decreases n, 0
  {
    match n.children {
      case Nodes(nodes) =>
        AllTextsAreLeaves(nodes, insideJsx || IsJsx(n));
        AllHiddenLeaves(nodes);
      case NoChildren =>
        if n.value.Some? {
          assert n.value.value + "" == n.value.value;
        }
    }
  }

  lemma {:induction false} AllTextsAreLeaves(ns: seq<Node>, insideJsx: bool)
    ensures AllTexts(ns) == TextOf(LeavesOfAll(ns, insideJsx), true)
    ensures CleanTexts(ns) == TextOf(LeavesOfAll(ns, false), false)
    decreases ns, 1
  {
    if ns != [] {
      TextsAreLeaves(ns[0], insideJsx);
      AllTextsAreLeaves(ns[1..], insideJsx);
      TextOfAppend(Leaves(ns[0], insideJsx), LeavesOfAll(ns[1..], insideJsx), true);
      TextOfAppend(Leaves(ns[0], false), LeavesOfAll(ns[1..], false), false);
    }
  }

  /** A badge for each removed node in order, with the node's name, and its trimmed text if there is any. */
  ghost predicate Describes(lib: TextLibrary, badges: seq<Badge>, removed: seq<Node>) {
    && |badges| == |removed|
    && forall i :: 0 <= i < |removed| ==>
         && badges[i].component == removed[i].name
         && (badges[i].text == None <==> lib.trim(TextOf(Leaves(removed[i], true), true)) == "")
         && (badges[i].text.Some? ==> badges[i].text.value == lib.trim(TextOf(Leaves(removed[i], true), true)))
  }

  lemma BadgesDescribeRemoved(lib: TextLibrary, removed: seq<Node>)
    ensures Describes(lib, Badges(lib, removed), removed)
  {
    forall i | 0 <= i < |removed|
      ensures AllText(removed[i]) == TextOf(Leaves(removed[i], true), true)
    {
      TextsAreLeaves(removed[i], true);
    }
  }

  /** A heading with an identifier and a JSX child keeps its text outside JSX; its children are split into kept
      nodes and nodes that become badges, both in order; and no property but the identifier and the badges
      changes. */
  lemma RewrittenHeading(lib: TextLibrary, n: Node, taken: Occurrences)
    requires n.nodeType == "element" && n.tagName in {"h1", "h2", "h3", "h4", "h5", "h6"}
    requires n.properties.Some? && "id" in n.properties.value && n.properties.value["id"] != ""
    requires n.children.Nodes?
    requires exists c ::
               c in n.children.nodes && (c.nodeType == "mdxJsxTextElement" || c.nodeType == "mdxJsxFlowElement")
    ensures var (n', taken') := Visit(lib, n, taken);
            && CleanText(n') == CleanText(n)
            && IsHeading(n') && n'.children.Nodes? && n' == n.(children := n'.children, properties := n'.properties)
            && (forall c :: c in n'.children.nodes <==>
                  && c in n.children.nodes
                  && c.nodeType != "mdxJsxTextElement" && c.nodeType != "mdxJsxFlowElement")
            && var slug := lib.slugify(lib.trim(TextOf(Leaves(n, false), false)));
            && taken' == Recorded(taken, slug)
            && (exists removed: seq<Node>, badges ::
                  && Interleaves(n.children.nodes, n'.children.nodes, removed)
                  && (forall c :: c in removed ==>
                        c.nodeType == "mdxJsxTextElement" || c.nodeType == "mdxJsxFlowElement")
                  && Describes(lib, badges, removed)
                  && n'.properties == Some(n.properties.value["data-heading-badges" := lib.stringify(badges)]
                                            ["id" := SlugFor(taken, slug)]))
  {
    var nodes := n.children.nodes;
    KeptIsClean(nodes);
    KeptHasAll(nodes);
    ChildrenSplit(nodes);
    KeptHasTheText(nodes);
    TextsAreLeaves(n, false);
    BadgesDescribeRemoved(lib, Removed(nodes));
    var slug := lib.slugify(lib.trim(CleanText(n)));
    assert IsRewritten(n) && IsHeading(n);
    assert WantedSlug(lib, n) == slug;
    var badges := Badges(lib, Removed(nodes));
    var n' := Rewrite(lib, n, taken).0;
    assert n'.properties
        == Some(n.properties.value["data-heading-badges" := lib.stringify(badges)]["id" := SlugFor(taken, slug)]);
    assert Describes(lib, badges, Removed(nodes));
    assert n'.children.nodes == Kept(nodes);
  }

  lemma {:induction false} KeptHasAll(ns: seq<Node>)
    ensures forall c :: c in ns ==> c in Kept(ns) || IsJsx(c)
  {
    if ns != [] {
      KeptHasAll(ns[..|ns| - 1]);
      assert ns == ns[..|ns| - 1] + [ns[|ns| - 1]];
    }
  }

  /** A heading without an identifier, or with an empty one, is passed over. */
  lemma UnidentifiedHeadingStays(lib: TextLibrary, n: Node, taken: Occurrences)
    requires n.nodeType == "element" && n.tagName in {"h1", "h2", "h3", "h4", "h5", "h6"}
    requires n.properties.None? || "id" !in n.properties.value || n.properties.value["id"] == ""
    ensures Visit(lib, n, taken) == (n, taken)
  {
  }

  /** A heading with an identifier and no JSX child keeps it, and the table records it with a counter of zero. */
  lemma PlainHeadingIsRecorded(lib: TextLibrary, n: Node, taken: Occurrences)
    requires n.nodeType == "element" && n.tagName in {"h1", "h2", "h3", "h4", "h5", "h6"}
    requires n.properties.Some? && "id" in n.properties.value && n.properties.value["id"] != ""
    requires n.children.Nodes? ==>
               forall c :: c in n.children.nodes ==>
                 c.nodeType != "mdxJsxTextElement" && c.nodeType != "mdxJsxFlowElement"
    ensures Visit(lib, n, taken) == (n, taken[n.properties.value["id"] := 0])
  {
  }

  /** Any other node is kept, and its children are visited one after another with the same table. */
  lemma OtherNodesAreEntered(lib: TextLibrary, n: Node, taken: Occurrences)
    requires n.nodeType != "element" || n.tagName !in {"h1", "h2", "h3", "h4", "h5", "h6"}
    ensures n.children.NoChildren? ==> Visit(lib, n, taken) == (n, taken)
    ensures n.children.Nodes? ==>
              var (nodes, taken') := VisitAll(lib, n.children.nodes, taken);
              Visit(lib, n, taken) == (n.(children := Nodes(nodes)), taken') && |nodes| == |n.children.nodes|
  {
    if n.children.Nodes? {
      VisitAllKeepsLength(lib, n.children.nodes, taken);
    }
  }

  lemma {:induction false} VisitAllKeepsLength(lib: TextLibrary, ts: seq<Node>, taken: Occurrences)
    ensures |VisitAll(lib, ts, taken).0| == |ts|
  {
    if ts != [] {
      VisitAllKeepsLength(lib, ts[1..], Visit(lib, ts[0], taken).1);
    }
  }

  // ---------- What happens to the rest of the tree ----------

  /** `t'` differs from `t` only inside headings that have an identifier and a JSX child. */
  ghost predicate OnlyHeadingsDiffer(t: Node, t': Node)
    decreases t, 0
  {
    if IsHeading(t) then
      if IsRewritten(t) then
        && t' == t.(children := t'.children, properties := t'.properties)
        && t'.properties.Some?
        && t'.properties.value - {"id", BADGES} == t.properties.value - {"id", BADGES}
      else t' == t
    else
      match t.children
      case NoChildren => t' == t
      case Nodes(nodes) =>
        && t' == t.(children := t'.children)
        && t'.children.Nodes?
        && OnlyHeadingsDifferInAll(nodes, t'.children.nodes)
  }

  ghost predicate OnlyHeadingsDifferInAll(ts: seq<Node>, ts': seq<Node>)
    decreases ts, 1
  {
    && |ts| == |ts'|
    && (ts != [] ==> OnlyHeadingsDiffer(ts[0], ts'[0]) && OnlyHeadingsDifferInAll(ts[1..], ts'[1..]))
  }

  lemma {:induction false} VisitChangesOnlyHeadings(lib: TextLibrary, t: Node, taken: Occurrences)
    ensures OnlyHeadingsDiffer(t, Visit(lib, t, taken).0)
    decreases t, 0
  {
    if IsHeading(t) {
      if IsRewritten(t) {
        var p, p' := t.properties.value, Visit(lib, t, taken).0.properties.value;
        assert p'.Keys == p.Keys + {"id", BADGES};
        assert p' - {"id", BADGES} == p - {"id", BADGES};
      }
    } else if t.children.Nodes? {
      VisitAllChangesOnlyHeadings(lib, t.children.nodes, taken);
    }
  }

  lemma {:induction false} VisitAllChangesOnlyHeadings(lib: TextLibrary, ts: seq<Node>, taken: Occurrences)
    ensures OnlyHeadingsDifferInAll(ts, VisitAll(lib, ts, taken).0)
    decreases ts, 1
  {
    if ts != [] {
      VisitChangesOnlyHeadings(lib, ts[0], taken);
      var (t', taken') := Visit(lib, ts[0], taken);
      VisitAllChangesOnlyHeadings(lib, ts[1..], taken');
      assert VisitAll(lib, ts, taken).0[1..] == VisitAll(lib, ts[1..], taken').0;
    }
  }

  // ---------- Identifiers across the document ----------

  /** The outermost headings in document order. */
  function Headings(t: Node): seq<Node>
    decreases t, 0
  {
    if IsHeading(t) then [t]
    else
      match t.children
      case NoChildren => []
      case Nodes(nodes) => AllHeadings(nodes)
  }

  function AllHeadings(ts: seq<Node>): seq<Node>
    decreases ts, 1
  {
    if ts == [] then [] else Headings(ts[0]) + AllHeadings(ts[1..])
  }

  predicate Identified(n: Node) {
    n.properties.Some? && "id" in n.properties.value
  }

  function IdOf(n: Node): string
    requires Identified(n)
  {
    n.properties.value["id"]
  }

  function RewriteAll(lib: TextLibrary, hs: seq<Node>, taken: Occurrences): (r: (seq<Node>, Occurrences))
    ensures |r.0| == |hs|
    ensures forall i :: 0 <= i < |hs| && HasId(hs[i]) ==> Identified(r.0[i])
  {
    if hs == [] then ([], taken)
    else
      var (h', taken') := Rewrite(lib, hs[0], taken);
      var (rest, taken'') := RewriteAll(lib, hs[1..], taken');
      ([h'] + rest, taken'')
  }

  lemma {:induction false} RewriteAllAppend(lib: TextLibrary, a: seq<Node>, b: seq<Node>, taken: Occurrences)
    ensures var (a', between) := RewriteAll(lib, a, taken);
            var (b', end) := RewriteAll(lib, b, between);
            RewriteAll(lib, a + b, taken) == (a' + b', end)
  {
    hide Rewrite, HasId, Identified;
    if a == [] {
      assert a + b == b;
      assert [] + RewriteAll(lib, b, taken).0 == RewriteAll(lib, b, taken).0;
    } else {
      var (h', taken') := Rewrite(lib, a[0], taken);
      RewriteAllAppend(lib, a[1..], b, taken');
      assert (a + b)[1..] == a[1..] + b;
      var (rest, between) := RewriteAll(lib, a[1..], taken');
      var b' := RewriteAll(lib, b, between).0;
      AppendAssociates([h'], rest, b');
    }
  }

  /** The headings of the visited tree are the rewritten headings of the tree, in order. */
  lemma {:induction false} VisitRewritesHeadings(lib: TextLibrary, t: Node, taken: Occurrences)
    ensures (Headings(Visit(lib, t, taken).0), Visit(lib, t, taken).1) == RewriteAll(lib, Headings(t), taken)
    decreases t, 0
  {
    if IsHeading(t) {
      var (h', taken') := Rewrite(lib, t, taken);
      assert RewriteAll(lib, [t][1..], taken') == ([], taken');
      assert [h'] + [] == [h'];
      assert RewriteAll(lib, [t], taken) == ([h'], taken');
    } else if t.children.Nodes? {
      VisitAllRewritesHeadings(lib, t.children.nodes, taken);
    }
  }

  lemma {:induction false} VisitAllRewritesHeadings(lib: TextLibrary, ts: seq<Node>, taken: Occurrences)
    ensures (AllHeadings(VisitAll(lib, ts, taken).0), VisitAll(lib, ts, taken).1)
         == RewriteAll(lib, AllHeadings(ts), taken)
    decreases ts, 1
  {
    if ts != [] {
      VisitRewritesHeadings(lib, ts[0], taken);
      var (t', taken') := Visit(lib, ts[0], taken);
      VisitAllRewritesHeadings(lib, ts[1..], taken');
      RewriteAllAppend(lib, Headings(ts[0]), AllHeadings(ts[1..]), taken);
      assert VisitAll(lib, ts, taken).0[1..] == VisitAll(lib, ts[1..], taken').0;
    }
  }

  /** A heading with an identifier ends with one, and that one is all the table learns. */
  lemma RewriteRecords(lib: TextLibrary, n: Node, taken: Occurrences)
    ensures HasId(n) ==> var (n', taken') := Rewrite(lib, n, taken);
              && Identified(n')
              && taken'.Keys == taken.Keys + {IdOf(n')}
    ensures !HasId(n) ==> Rewrite(lib, n, taken).1 == taken
    ensures IsRewritten(n) ==> IdOf(Rewrite(lib, n, taken).0) !in taken
    ensures HasId(n) && !IsRewritten(n) ==> IdOf(Rewrite(lib, n, taken).0) == IdOf(n)
  {
    if IsRewritten(n) {
      SlugIsFirstFree(taken, WantedSlug(lib, n));
    }
  }

  /** The generated identifier of heading `j` was not recorded when the pass began. */
  lemma {:induction false} GeneratedIsNew(lib: TextLibrary, hs: seq<Node>, taken: Occurrences, j: nat)
    requires j < |hs| && IsRewritten(hs[j])
    ensures var h := RewriteAll(lib, hs, taken).0[j];
            Identified(h) && IdOf(h) !in taken
  {
    RewriteRecords(lib, hs[0], taken);
    if j > 0 {
      GeneratedIsNew(lib, hs[1..], Rewrite(lib, hs[0], taken).1, j - 1);
    }
  }

  lemma {:induction false} GeneratedDiffersFromEarlier(
    lib: TextLibrary, hs: seq<Node>, taken: Occurrences, i: nat, j: nat)
    requires i < j < |hs| && HasId(hs[i]) && IsRewritten(hs[j])
    ensures var hs' := RewriteAll(lib, hs, taken).0;
            && Identified(hs'[i]) && Identified(hs'[j])
            && IdOf(hs'[i]) != IdOf(hs'[j])
  {
    RewriteRecords(lib, hs[0], taken);
    var taken' := Rewrite(lib, hs[0], taken).1;
    if i == 0 {
      GeneratedIsNew(lib, hs[1..], taken', j - 1);
    } else {
      GeneratedDiffersFromEarlier(lib, hs[1..], taken', i - 1, j - 1);
    }
  }

  /** In the transformed document, the identifier of a rewritten heading differs from that of every earlier
      heading with an identifier. If two headings share one, the later one is plain and brought its own. */
  lemma GeneratedIdsAreUnique(lib: TextLibrary, t: Node, i: nat, j: nat)
    requires i < j < |Headings(t)| && HasId(Headings(t)[i]) && IsRewritten(Headings(t)[j])
    ensures var hs := Headings(Transform(lib, t));
            && |hs| == |Headings(t)|
            && Identified(hs[i]) && Identified(hs[j])
            && IdOf(hs[i]) != IdOf(hs[j])
  {
    VisitRewritesHeadings(lib, t, map[]);
    GeneratedDiffersFromEarlier(lib, Headings(t), map[], i, j);
  }

  /** The identifiers that the headings of `hs` with an identifier have in the rewritten `hs'`. */
  function FinalIds(hs: seq<Node>, hs': seq<Node>): seq<string>
    requires |hs| == |hs'| && forall i :: 0 <= i < |hs| && HasId(hs[i]) ==> Identified(hs'[i])
  {
    if hs == [] then []
    else
      var rest := FinalIds(hs[1..], hs'[1..]);
      if HasId(hs[0]) then [IdOf(hs'[0])] + rest else rest
  }

  /** No plain heading finds its own identifier in the table when it is about to record it. */
  ghost predicate PlainIdsAreNew(lib: TextLibrary, hs: seq<Node>, taken: Occurrences) {
    hs != [] ==>
      && (HasId(hs[0]) && !IsRewritten(hs[0]) ==> IdOf(hs[0]) !in taken)
      && PlainIdsAreNew(lib, hs[1..], Rewrite(lib, hs[0], taken).1)
  }

  lemma DistinctCons(first: string, rest: seq<string>)
    ensures Distinct([first] + rest) <==> first !in rest && Distinct(rest)
  {
    var s := [first] + rest;
    assert forall i :: 0 <= i < |rest| ==> s[i + 1] == rest[i];
    if Distinct(s) {
      forall i, j | 0 <= i < j < |rest| ensures rest[i] != rest[j] {
        assert s[i + 1] != s[j + 1];
      }
      forall j | 0 <= j < |rest| ensures rest[j] != first {
        assert s[0] != s[j + 1];
      }
    }
  }

  lemma {:induction false} NewPlainIdsMeanDistinctIds(lib: TextLibrary, hs: seq<Node>, taken: Occurrences)
    ensures var ids := FinalIds(hs, RewriteAll(lib, hs, taken).0);
            PlainIdsAreNew(lib, hs, taken) <==> Distinct(ids) && forall id :: id in ids ==> id !in taken
  {
    if hs != [] {
      var (h', taken') := Rewrite(lib, hs[0], taken);
      var (rest, end) := RewriteAll(lib, hs[1..], taken');
      NewPlainIdsMeanDistinctIds(lib, hs[1..], taken');
      RewriteRecords(lib, hs[0], taken);
      assert ([h'] + rest)[1..] == rest;
      if HasId(hs[0]) {
        var ids := FinalIds(hs[1..], rest);
        DistinctCons(IdOf(h'), ids);
        assert IdOf(h') in [IdOf(h')] + ids;
        assert forall id :: id in taken' <==> id in taken || id == IdOf(h');
      }
    }
  }

  /** The trees have as many headings, and those with an identifier still have one. */
  ghost predicate HeadingsMatch(t: Node, t': Node) {
    && |Headings(t')| == |Headings(t)|
    && forall i :: 0 <= i < |Headings(t)| && HasId(Headings(t)[i]) ==> Identified(Headings(t')[i])
  }

  /** The headings that have an identifier end with pairwise different ones exactly if no plain heading
      meets its own in the table. Generated identifiers never spoil this by themselves. */
  lemma IdsAreUniqueExactlyWhenPlainOnesAreNew(lib: TextLibrary, t: Node)
    ensures HeadingsMatch(t, Transform(lib, t))
    ensures Distinct(FinalIds(Headings(t), Headings(Transform(lib, t)))) <==> PlainIdsAreNew(lib, Headings(t), map[])
  {
    VisitRewritesHeadings(lib, t, map[]);
    NewPlainIdsMeanDistinctIds(lib, Headings(t), map[]);
  }

  function Text(value: string): Node {
    Node("text", "", "", Some(value), None, NoChildren)
  }

  function Heading(id: string, children: seq<Node>): Node {
    Node("element", "h2", "", None, Some(map["id" := id]), Nodes(children))
  }

  /** A heading with a badge behind its text, followed by a plain heading whose identifier is the slug of that text. */
  function RepeatingDocument(lib: TextLibrary, text: string, badge: Node, id: string): Node {
    Node("root", "", "", None, None,
         Nodes([Heading(id, [Text(text), badge]), Heading(lib.slugify(lib.trim(text)), [Text(text)])]))
  }

  /** So a plain heading can repeat the identifier generated for an earlier one. */
  lemma PlainHeadingRepeatsGeneratedId(lib: TextLibrary, text: string, badge: Node, id: string)
    requires badge.nodeType == "mdxJsxTextElement" || badge.nodeType == "mdxJsxFlowElement"
    requires id != "" && lib.slugify(lib.trim(text)) != ""
    ensures var t, slug := RepeatingDocument(lib, text, badge, id), lib.slugify(lib.trim(text));
            && HeadingsMatch(t, Transform(lib, t))
            && FinalIds(Headings(t), Headings(Transform(lib, t))) == [slug, slug]
  {
    var t, slug := RepeatingDocument(lib, text, badge, id), lib.slugify(lib.trim(text));
    var first, second := Heading(id, [Text(text), badge]), Heading(slug, [Text(text)]);
    AllHeadingsOfTwo(first, second);
    assert Headings(t) == [first, second];
    VisitRewritesHeadings(lib, t, map[]);
    assert badge in first.children.nodes;
    KeptOfTwo(Text(text), badge);
    assert CleanTexts([Text(text)]) == CleanText(Text(text)) + CleanTexts([Text(text)][1..]);
    assert text + "" == text;
    assert WantedSlug(lib, first) == slug;
    assert [first, second][1..] == [second] && [second][1..] == [];
    var (first', taken) := Rewrite(lib, first, map[]);
    assert IdOf(first') == slug;
    assert !HasJsxChild(second);
    assert RewriteAll(lib, [second], taken).0 == [second];
    assert RewriteAll(lib, [first, second], map[]).0 == [first', second];
    assert FinalIds([second], [second]) == [slug] + FinalIds([second][1..], [second][1..]);
    assert [first', second][1..] == [second];
  }

  lemma AllHeadingsOfTwo(a: Node, b: Node)
    requires IsHeading(a) && IsHeading(b)
    ensures AllHeadings([a, b]) == [a, b]
  {
    assert [a, b][1..] == [b] && [b][1..] == [];
    assert AllHeadings([b]) == [b] + [];
    assert AllHeadings([a, b]) == Headings(a) + AllHeadings([b]);
  }

  lemma KeptOfTwo(a: Node, b: Node)
    requires !IsJsx(a) && IsJsx(b)
    ensures Kept([a, b]) == [a]
  {
    assert [a, b][..1] == [a] && [a][..0] == [];
    assert Kept([a]) == [] + [a];
  }
}
