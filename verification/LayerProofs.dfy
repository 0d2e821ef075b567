/**
 What connecting the layers of a tree does, for every tree: the links issued, the state between
 any two tokens, and the exact condition under which the notation is carried out faithfully.
 */
module LayerProofs {
  import opened Common
  import opened LayerNotation
  import opened LayerManager

  predicate Registered(table: seq<Layer>, links: seq<NamedLink>) {
    forall i | 0 <= i < |links| :: Find(table, links[i].parent) != null && Find(table, links[i].child) != null
  }

  /** Each name stands for the first layer registered under it. */
  function Layers(table: seq<Layer>, names: seq<string>): (ls: seq<Layer?>)
    ensures |ls| == |names|
    ensures forall i | 0 <= i < |names| :: ls[i] == Find(table, names[i])
  {
    seq(|names|, i requires 0 <= i < |names| => Find(table, names[i]))
  }

  function Resolve(table: seq<Layer>, links: seq<NamedLink>): (ls: seq<Link>)
    ensures |ls| == |links|
    ensures forall i | 0 <= i < |links| ::
      ls[i] == Link(links[i].mode, Find(table, links[i].parent), Find(table, links[i].child))
  {
    seq(|links|, i requires 0 <= i < |links| =>
      Link(links[i].mode, Find(table, links[i].parent), Find(table, links[i].child)))
  }

  // -------- The tree's own account of a position between two tokens --------

  /** The layers whose brackets are open, outermost first; the last layer named; the links so far. */
  datatype Where = Where(open: seq<string>, last: string, links: seq<NamedLink>)

  function LastInGroup(name: string, g: Group): string
    decreases g
  {
    match g
    case Bare => name
    case Bracket(items) => LastInForest(name, items)
  }

  function LastInForest(last: string, f: Forest): string
    decreases f
  {
    match f
    case Nil => last
    case Item(_, t, rest) => LastInForest(LastInGroup(t.name, t.group), rest)
  }

  /** After `j` tokens of the group that belongs to the layer `name`. */
  function InGroup(name: string, g: Group, j: nat): Where
    requires j <= |GroupTokens(g)|
    decreases g
  {
    if j == 0 then Where([], name, [])
    else if j == |GroupTokens(g)| then Where([], LastInGroup(name, g), GroupLinks(name, g))
    else
      var w := InForest(name, name, g.items, j - 1);
      w.(open := [name] + w.open)
  }

  /** After `j` tokens of a forest under `parent`, entered when `last` was the last layer named. */
  function InForest(parent: string, last: string, f: Forest, j: nat): Where
    requires j <= |ForestTokens(f)|
    decreases f
  {
    if j == 0 then Where([], last, [])
    else
      var link := NamedLink(f.mode, parent, f.tree.name);
      var inner := GroupTokens(f.tree.group);
      if j - 1 < |inner| then
        var w := InGroup(f.tree.name, f.tree.group, j - 1);
        w.(links := [link] + w.links)
      else
        var w := InForest(parent, LastInGroup(f.tree.name, f.tree.group), f.rest, j - 1 - |inner|);
        w.(links := [link] + GroupLinks(f.tree.name, f.tree.group) + w.links)
  }

  /** A group's or forest's account at its end is the whole of it. */
  lemma {:induction false} ForestEnd(parent: string, last: string, f: Forest)
    ensures InForest(parent, last, f, |ForestTokens(f)|) ==
            Where([], LastInForest(last, f), ForestLinks(parent, f))
    decreases f
  {
    if f.Item? {
      ForestEnd(parent, LastInGroup(f.tree.name, f.tree.group), f.rest);
    }
  }

  // -------- The interpreter follows the tree's account --------

  /** The state `s`, moved to a position of the tree. */
  function Moved(table: seq<Layer>, s: Progress, w: Where): Progress {
    Progress(Find(table, w.last), s.stack + Layers(table, w.open), s.links + Resolve(table, w.links), None)
  }

  lemma {:induction false} RunGroup(table: seq<Layer>, s: Progress, name: string, g: Group, j: nat)
    requires j <= |GroupTokens(g)|
    requires s.fault == None && s.cur != null && s.cur == Find(table, name)
    requires Registered(table, GroupLinks(name, g))
    requires |s.stack| + GroupDepth(g) <= MAX_LAYER_NUMBER
    ensures Run(table, s, GroupTokens(g)[..j]) == Moved(table, s, InGroup(name, g, j))
    decreases g, 2
  {
    var toks := GroupTokens(g);
    if j == 0 {
      assert toks[..0] == [];
    } else if j < |toks| {
      RunOpenGroup(table, s, name, g, j - 1);
      OpenOneMore(table, s, name, InForest(name, name, g.items, j - 1));
    } else {
      assert toks[..j] == toks;
      RunClosedGroup(table, s, name, g);
    }
  }

  lemma {:induction false} OpenOneMore(table: seq<Layer>, s: Progress, name: string, w: Where)
    requires s.cur == Find(table, name)
    ensures Moved(table, s.(stack := s.stack + [s.cur]), w) == Moved(table, s, w.(open := [name] + w.open))
  {
    assert s.stack + [s.cur] + Layers(table, w.open) == s.stack + Layers(table, [name] + w.open);
  }

  /** Inside the brackets, after `k` tokens of the forest. */
  lemma {:induction false} RunOpenGroup(table: seq<Layer>, s: Progress, name: string, g: Group, k: nat)
    requires g.Bracket? && k <= |ForestTokens(g.items)|
    requires s.fault == None && s.cur != null && s.cur == Find(table, name)
    requires Registered(table, GroupLinks(name, g))
    requires |s.stack| + GroupDepth(g) <= MAX_LAYER_NUMBER
    ensures Run(table, s, GroupTokens(g)[..k + 1]) ==
            Moved(table, s.(stack := s.stack + [s.cur]), InForest(name, name, g.items, k))
    decreases g, 0
  {
    var toks, inner := GroupTokens(g), ForestTokens(g.items)[..k];
    var s1 := s.(stack := s.stack + [s.cur]);
    assert toks[..k + 1] == ["("] + inner;
    RunConcat(table, s, ["("], inner);
    assert ["("][1..] == [];
    assert Run(table, s, ["("]) == Step(table, s, "(") == s1;
    RunForest(table, s1, name, name, g.items, k);
  }

  /** The whole group, with its closing bracket. */
  lemma {:induction false} RunClosedGroup(table: seq<Layer>, s: Progress, name: string, g: Group)
    requires g.Bracket?
    requires s.fault == None && s.cur != null && s.cur == Find(table, name)
    requires Registered(table, GroupLinks(name, g))
    requires |s.stack| + GroupDepth(g) <= MAX_LAYER_NUMBER
    ensures Run(table, s, GroupTokens(g)) ==
            Moved(table, s, Where([], LastInGroup(name, g), GroupLinks(name, g)))
    decreases g, 1
  {
    var f, toks := g.items, GroupTokens(g);
    var k := |ForestTokens(f)|;
    assert toks == toks[..k + 1] + [")"];
    RunOpenGroup(table, s, name, g, k);
    ForestEnd(name, name, f);
    RegisteredLast(table, name, g);
    RunConcat(table, s, toks[..k + 1], [")"]);
    var end := Moved(table, s.(stack := s.stack + [s.cur]), InForest(name, name, f, k));
    assert [")"][1..] == [];
    assert end.stack == s.stack + [s.cur];
    assert Run(table, end, [")"]) == Step(table, end, ")") == end.(stack := s.stack);
  }

  lemma {:induction false} RunForest(table: seq<Layer>, s: Progress, parent: string, last: string, f: Forest, j: nat)
    requires j <= |ForestTokens(f)|
    requires s.fault == None && s.cur != null && s.cur == Find(table, last)
    requires s.stack != [] && Top(s.stack) != null && Top(s.stack) == Find(table, parent)
    requires Registered(table, ForestLinks(parent, f))
    requires |s.stack| + ForestDepth(f) <= MAX_LAYER_NUMBER
    ensures Run(table, s, ForestTokens(f)[..j]) == Moved(table, s, InForest(parent, last, f, j))
    decreases f
  {
    if j == 0 {
      assert ForestTokens(f)[..0] == [];
    } else {
      var inner := GroupTokens(f.tree.group);
      var s1 := AfterItem(table, s, parent, f);
      if j - 1 < |inner| {
        InsideItem(parent, last, f, j - 1);
        RunInsideItem(table, s, s1, parent, f, j - 1);
      } else {
        var k, last' := j - 1 - |inner|, LastInGroup(f.tree.name, f.tree.group);
        var s2 := AfterItemTree(table, s, s1, parent, f);
        RunForest(table, s2, parent, last', f.rest, k);
        RunPastItem(table, s, s2, parent, last, f, j, k);
      }
    }
  }

  lemma {:induction false} InsideItem(parent: string, last: string, f: Forest, k: nat)
    requires f.Item? && k < |GroupTokens(f.tree.group)|
    ensures var w := InGroup(f.tree.name, f.tree.group, k);
      && k + 1 <= |ForestTokens(f)|
      && InForest(parent, last, f, k + 1) == w.(links := [NamedLink(f.mode, parent, f.tree.name)] + w.links)
  {
  }

  lemma {:induction false} PastItem(parent: string, last: string, f: Forest, k: nat)
    requires f.Item? && k <= |ForestTokens(f.rest)|
    ensures var j := 1 + |GroupTokens(f.tree.group)| + k;
      var w := InForest(parent, LastInGroup(f.tree.name, f.tree.group), f.rest, k);
      && j <= |ForestTokens(f)|
      && InForest(parent, last, f, j) ==
         w.(links := [NamedLink(f.mode, parent, f.tree.name)] + TreeLinks(f.tree) + w.links)
  {
  }

  /** Past the first item, at a position of the rest of the forest. */
  lemma {:induction false} RunPastItem(
      table: seq<Layer>, s: Progress, s2: Progress, parent: string, last: string, f: Forest, j: nat, k: nat)
    requires f.Item? && k <= |ForestTokens(f.rest)| && j == 1 + |GroupTokens(f.tree.group)| + k <= |ForestTokens(f)|
    requires Run(table, s, ForestTokens(f)[..1 + |GroupTokens(f.tree.group)|]) == s2
    requires s2.stack == s.stack
    requires s2.links == s.links + Resolve(table, [NamedLink(f.mode, parent, f.tree.name)] + TreeLinks(f.tree))
    requires var w := InForest(parent, LastInGroup(f.tree.name, f.tree.group), f.rest, k);
      Run(table, s2, ForestTokens(f.rest)[..k]) == Moved(table, s2, w)
    ensures Run(table, s, ForestTokens(f)[..j]) == Moved(table, s, InForest(parent, last, f, j))
  {
    var toks, outer, n := ForestTokens(f), ForestTokens(f.rest), 1 + |GroupTokens(f.tree.group)|;
    var w := InForest(parent, LastInGroup(f.tree.name, f.tree.group), f.rest, k);
    PastItem(parent, last, f, k);
    assert toks[..j] == toks[..n] + outer[..k];
    RunConcat(table, s, toks[..n], outer[..k]);
    ResolveConcat(table, s.links, [NamedLink(f.mode, parent, f.tree.name)] + TreeLinks(f.tree), w.links);
  }

  /** Inside the first item's bracket group. */
  lemma {:induction false} RunInsideItem(table: seq<Layer>, s: Progress, s1: Progress, parent: string, f: Forest, k: nat)
    requires f.Item? && k <= |GroupTokens(f.tree.group)|
    requires s1 == Progress(Find(table, f.tree.name), s.stack,
                            s.links + Resolve(table, [NamedLink(f.mode, parent, f.tree.name)]), None)
    requires s1.cur != null && Run(table, s, ForestTokens(f)[..1]) == s1
    requires Registered(table, TreeLinks(f.tree))
    requires |s.stack| + GroupDepth(f.tree.group) <= MAX_LAYER_NUMBER
    ensures var w := InGroup(f.tree.name, f.tree.group, k);
      Run(table, s, ForestTokens(f)[..k + 1]) ==
      Moved(table, s, w.(links := [NamedLink(f.mode, parent, f.tree.name)] + w.links))
    decreases f.tree.group, 3
  {
    var toks, inner := ForestTokens(f), GroupTokens(f.tree.group);
    assert toks[..k + 1] == toks[..1] + inner[..k];
    RunConcat(table, s, toks[..1], inner[..k]);
    RunGroup(table, s1, f.tree.name, f.tree.group, k);
    MovedPast(table, s, [NamedLink(f.mode, parent, f.tree.name)], InGroup(f.tree.name, f.tree.group, k));
  }

  lemma {:induction false} ResolveConcat(table: seq<Layer>, before: seq<Link>, a: seq<NamedLink>, b: seq<NamedLink>)
    ensures (before + Resolve(table, a)) + Resolve(table, b) == before + Resolve(table, a + b)
  {
  }

  /** Links issued on the way to a position may be counted as part of the position. */
  lemma {:induction false} MovedPast(table: seq<Layer>, s: Progress, before: seq<NamedLink>, w: Where)
    ensures Moved(table, s.(links := s.links + Resolve(table, before)), w).links ==
            Moved(table, s, w.(links := before + w.links)).links
  {
    ResolveConcat(table, s.links, before, w.links);
  }

  /** A whole bracket group leaves the stack as it found it. */
  lemma {:induction false} AfterTree(table: seq<Layer>, s: Progress, t: Tree) returns (s1: Progress)
    requires s.fault == None && s.cur != null && s.cur == Find(table, t.name)
    requires Registered(table, TreeLinks(t))
    requires |s.stack| + GroupDepth(t.group) <= MAX_LAYER_NUMBER
    ensures Run(table, s, GroupTokens(t.group)) == s1
    ensures s1 == Progress(Find(table, LastInGroup(t.name, t.group)), s.stack,
                           s.links + Resolve(table, TreeLinks(t)), None)
    ensures s1.cur != null
    decreases t.group, 3
  {
    var toks := GroupTokens(t.group);
    assert toks[..|toks|] == toks;
    RunGroup(table, s, t.name, t.group, |toks|);
    RegisteredLast(table, t.name, t.group);
    s1 := Moved(table, s, InGroup(t.name, t.group, |toks|));
    assert s1.stack == s.stack;
  }

  /** One item with its bracket group. */
  lemma {:induction false} AfterItemTree(table: seq<Layer>, s: Progress, s1: Progress, parent: string, f: Forest)
    returns (s2: Progress)
    requires f.Item? && s.fault == None
    requires s1.fault == None && s1.cur != null && s1.cur == Find(table, f.tree.name)
    requires s1.stack == s.stack && s1.links == s.links + Resolve(table, [NamedLink(f.mode, parent, f.tree.name)])
    requires Run(table, s, ForestTokens(f)[..1]) == s1
    requires Registered(table, TreeLinks(f.tree))
    requires |s.stack| + GroupDepth(f.tree.group) <= MAX_LAYER_NUMBER
    ensures Run(table, s, ForestTokens(f)[..1 + |GroupTokens(f.tree.group)|]) == s2
    ensures s2 == Progress(Find(table, LastInGroup(f.tree.name, f.tree.group)), s.stack,
                           s.links + Resolve(table, [NamedLink(f.mode, parent, f.tree.name)] + TreeLinks(f.tree)), None)
    ensures s2.cur != null
    decreases f.tree.group, 4
  {
    var toks, inner := ForestTokens(f), GroupTokens(f.tree.group);
    assert toks[..1 + |inner|] == toks[..1] + inner;
    RunConcat(table, s, toks[..1], inner);
    s2 := AfterTree(table, s1, f.tree);
    ResolveConcat(table, s.links, [NamedLink(f.mode, parent, f.tree.name)], TreeLinks(f.tree));
  }

  /** One item's own token: the link is issued to the layer on top of the stack. */
  lemma {:induction false} AfterItem(table: seq<Layer>, s: Progress, parent: string, f: Forest) returns (s1: Progress)
    requires f.Item?
    requires s.fault == None && s.cur != null
    requires Top(s.stack) != null && Top(s.stack) == Find(table, parent)
    requires Registered(table, ForestLinks(parent, f))
    ensures Run(table, s, ForestTokens(f)[..1]) == s1
    ensures s1 == Progress(Find(table, f.tree.name), s.stack,
                           s.links + Resolve(table, [NamedLink(f.mode, parent, f.tree.name)]), None)
    ensures s1.cur != null
    ensures Registered(table, GroupLinks(f.tree.name, f.tree.group)) && Registered(table, ForestLinks(parent, f.rest))
  {
    RegisteredParts(table, parent, f);
    var tok := [ModeChar(f.mode)] + f.tree.name;
    assert ForestTokens(f)[..1] == [tok] && [tok][1..] == [];
    s1 := LinkStep(table, s, f.mode, parent, f.tree.name);
    assert Run(table, s, [tok]) == s1;
  }

  /** The token of a linked layer. */
  lemma {:induction false} LinkStep(table: seq<Layer>, s: Progress, m: Mode, parent: string, name: string)
    returns (s1: Progress)
    requires s.fault == None && s.cur != null
    requires Top(s.stack) != null && Top(s.stack) == Find(table, parent)
    ensures Step(table, s, [ModeChar(m)] + name) == s1
    ensures s1 == Progress(Find(table, name), s.stack, s.links + Resolve(table, [NamedLink(m, parent, name)]), None)
  {
    var tok := [ModeChar(m)] + name;
    assert Tail(tok) == name && Head(tok) == ModeChar(m) && ModeOf(Head(tok)) == Some(m);
    s1 := Step(table, s, tok);
    assert Resolve(table, [NamedLink(m, parent, name)]) == [Link(m, Top(s.stack), Find(table, name))];
  }

  lemma {:induction false} RegisteredConcat(table: seq<Layer>, a: seq<NamedLink>, b: seq<NamedLink>)
    ensures Registered(table, a + b) <==> Registered(table, a) && Registered(table, b)
  {
    var all := a + b;
    assert forall i | 0 <= i < |a| :: a[i] == all[i];
    assert forall i | 0 <= i < |b| :: b[i] == all[|a| + i];
  }

  /** A registered forest is registered part by part. */
  lemma {:induction false} RegisteredParts(table: seq<Layer>, parent: string, f: Forest)
    requires f.Item? && Registered(table, ForestLinks(parent, f))
    ensures Find(table, f.tree.name) != null
    ensures Registered(table, TreeLinks(f.tree)) && Registered(table, ForestLinks(parent, f.rest))
  {
    var link, a, b := [NamedLink(f.mode, parent, f.tree.name)], TreeLinks(f.tree), ForestLinks(parent, f.rest);
    assert ForestLinks(parent, f) == link + a + b;
    RegisteredConcat(table, link + a, b);
    RegisteredConcat(table, link, a);
    assert link[0].child == f.tree.name;
  }

  /** The last layer named in a registered group is registered. */
  lemma {:induction false} RegisteredLast(table: seq<Layer>, name: string, g: Group)
    requires Find(table, name) != null && Registered(table, GroupLinks(name, g))
    ensures Find(table, LastInGroup(name, g)) != null
    decreases g
  {
    if g.Bracket? {
      RegisteredLastForest(table, name, name, g.items);
    }
  }

  lemma {:induction false} RegisteredLastForest(table: seq<Layer>, parent: string, last: string, f: Forest)
    requires Find(table, last) != null && Registered(table, ForestLinks(parent, f))
    ensures Find(table, LastInForest(last, f)) != null
    decreases f
  {
    if f.Item? {
      RegisteredParts(table, parent, f);
      RegisteredLast(table, f.tree.name, f.tree.group);
      RegisteredLastForest(table, parent, LastInGroup(f.tree.name, f.tree.group), f.rest);
    }
  }

  // -------- Nesting past the stack's capacity --------

  lemma {:induction false} DeepGroup(table: seq<Layer>, s: Progress, name: string, g: Group)
    requires s.fault == None && s.cur != null && s.cur == Find(table, name)
    requires Registered(table, GroupLinks(name, g))
    requires |s.stack| <= MAX_LAYER_NUMBER < |s.stack| + GroupDepth(g)
    ensures Run(table, s, GroupTokens(g)).fault == Some(StackOverrun)
    decreases g
  {
    var f := g.items;
    var s1 := Step(table, s, "(");
    assert GroupTokens(g)[1..] == ForestTokens(f) + [")"];
    if s1.fault == None {
      DeepForest(table, s1, name, name, f);
    } else {
      RunFaulted(table, s1, ForestTokens(f));
    }
    RunConcat(table, s1, ForestTokens(f), [")"]);
    RunFaulted(table, Run(table, s1, ForestTokens(f)), [")"]);
  }

  lemma {:induction false} DeepForest(table: seq<Layer>, s: Progress, parent: string, last: string, f: Forest)
    requires s.fault == None && s.cur != null && s.cur == Find(table, last)
    requires s.stack != [] && Top(s.stack) != null && Top(s.stack) == Find(table, parent)
    requires Registered(table, ForestLinks(parent, f))
    requires |s.stack| <= MAX_LAYER_NUMBER < |s.stack| + ForestDepth(f)
    ensures Run(table, s, ForestTokens(f)).fault == Some(StackOverrun)
    decreases f
  {
    var Item(m, t, rest) := f;
    var toks, inner, outer := ForestTokens(f), GroupTokens(t.group), ForestTokens(rest);
    var s1 := AfterItem(table, s, parent, f);
    assert toks == toks[..1] + (inner + outer);
    RunConcat(table, s, toks[..1], inner + outer);
    RunConcat(table, s1, inner, outer);
    if |s.stack| + GroupDepth(t.group) > MAX_LAYER_NUMBER {
      DeepGroup(table, s1, t.name, t.group);
      RunFaulted(table, Run(table, s1, inner), outer);
    } else {
      var s2 := AfterTree(table, s1, t);
      DeepForest(table, s2, parent, LastInGroup(t.name, t.group), rest);
    }
  }

  // -------- Whatever the tokens, only registered layers are ever linked --------

  predicate OnlyRegistered(table: seq<Layer>, s: Progress) {
    && (s.cur != null ==> s.cur in table)
    && (forall i | 0 <= i < |s.stack| :: s.stack[i] != null ==> s.stack[i] in table)
    && (forall i | 0 <= i < |s.links| :: s.links[i].parent != null && s.links[i].parent in table)
    && (forall i | 0 <= i < |s.links| :: s.links[i].child != null ==> s.links[i].child in table)
  }

  lemma {:induction false} RunOnlyRegistered(table: seq<Layer>, s: Progress, toks: seq<string>)
    requires OnlyRegistered(table, s)
    ensures OnlyRegistered(table, Run(table, s, toks))
    decreases |toks|
  {
    if toks != [] {
      assert OnlyRegistered(table, Step(table, s, toks[0]));
      RunOnlyRegistered(table, Step(table, s, toks[0]), toks[1..]);
    }
  }

  // -------- Main results --------

  const START := Progress(null, [], [], None)

  lemma {:induction false} RunName(table: seq<Layer>, name: string, rest: seq<string>) returns (s: Progress)
    ensures s == Progress(Find(table, name), [], [], None)
    ensures Run(table, START, [name] + rest) == Run(table, s, rest)
  {
    s := Step(table, START, name);
    assert ([name] + rest)[1..] == rest;
  }

  /**
   Between any two tokens of a well-registered tree, the stack holds exactly the layers whose
   brackets are open, `pLayer` is the last layer named, and the links issued are those of the
   part already read; no store passes the end of the stack and no link goes through NULL.
   */
  lemma {:induction false} StateBetweenTokens(table: seq<Layer>, t: Tree, k: nat)
    requires k < |TreeTokens(t)|
    requires Find(table, t.name) != null && Registered(table, TreeLinks(t))
    requires GroupDepth(t.group) <= 255
    ensures Run(table, START, TreeTokens(t)[..k + 1]) == Moved(table, START, InGroup(t.name, t.group, k))
  {
    assert TreeTokens(t)[..k + 1] == [t.name] + GroupTokens(t.group)[..k];
    var s := RunName(table, t.name, GroupTokens(t.group)[..k]);
    RunGroup(table, s, t.name, t.group, k);
  }

  predicate Linked(links: seq<NamedLink>, parent: string, child: string) {
    exists i | 0 <= i < |links| :: links[i].parent == parent && links[i].child == child
  }

  predicate IsPath(links: seq<NamedLink>, path: seq<string>) {
    forall i | 0 < i < |path| :: Linked(links, path[i - 1], path[i])
  }

  lemma {:induction false} PathSurvives(a: seq<NamedLink>, links: seq<NamedLink>, path: seq<string>)
    requires IsPath(links, path)
    ensures IsPath(a + links, path)
  {
    forall i | 0 < i < |path| ensures Linked(a + links, path[i - 1], path[i]) {
      assert Linked(links, path[i - 1], path[i]);
      var k :| 0 <= k < |links| && links[k].parent == path[i - 1] && links[k].child == path[i];
      assert (a + links)[|a| + k] == links[k];
    }
  }

  lemma {:induction false} PathCons(links: seq<NamedLink>, head: string, path: seq<string>)
    requires IsPath(links, path) && (path != [] ==> Linked(links, head, path[0]))
    ensures IsPath(links, [head] + path)
  {
    var whole := [head] + path;
    forall i | 0 < i < |whole| ensures Linked(links, whole[i - 1], whole[i]) {
      if i > 1 {
        assert Linked(links, path[i - 2], path[i - 1]);
      }
    }
  }

  /** The open layers form a path of issued links that starts at the group's own layer. */
  lemma {:induction false} OpenLayersAreAPath(name: string, g: Group, j: nat)
    requires j <= |GroupTokens(g)|
    ensures var w := InGroup(name, g, j); IsPath(w.links, w.open) && (w.open != [] ==> w.open[0] == name)
    decreases g
  {
    if 0 < j < |GroupTokens(g)| {
      OpenForestPath(name, name, g.items, j - 1);
    }
  }

  lemma {:induction false} OpenForestPath(parent: string, last: string, f: Forest, j: nat)
    requires j <= |ForestTokens(f)|
    ensures var w := InForest(parent, last, f, j); IsPath(w.links, [parent] + w.open)
    decreases f
  {
    if j > 0 {
      var t, inner := f.tree, GroupTokens(f.tree.group);
      var link := NamedLink(f.mode, parent, t.name);
      var w := InForest(parent, last, f, j);
      if j - 1 < |inner| {
        OpenLayersAreAPath(t.name, t.group, j - 1);
        var v := InGroup(t.name, t.group, j - 1);
        PathSurvives([link], v.links, v.open);
        assert w.links[0] == link;
        PathCons(w.links, parent, w.open);
      } else {
        var last' := LastInGroup(t.name, t.group);
        OpenForestPath(parent, last', f.rest, j - 1 - |inner|);
        var v := InForest(parent, last', f.rest, j - 1 - |inner|);
        PathSurvives([link] + TreeLinks(t), v.links, [parent] + v.open);
      }
    }
  }

  /** The link events spell the given links, by the layers' own names. */
  predicate Spells(links: seq<Link>, named: seq<NamedLink>) {
    && |links| == |named|
    && forall i | 0 <= i < |links| ::
         && links[i].mode == named[i].mode
         && links[i].parent != null && links[i].parent.name == named[i].parent
         && links[i].child != null && links[i].child.name == named[i].child
  }

  /** The text of a tree is carried out: the tree's links in pre-order, and an empty stack. */
  predicate CarriedOut(end: Progress, t: Tree) {
    end.fault == None && end.stack == [] && Spells(end.links, TreeLinks(t))
  }

  lemma {:induction false} ConnectRuns(table: seq<Layer>, t: Tree)
    requires Writable(t)
    ensures Connect(table, Join(TreeTokens(t))) == Run(table, START, TreeTokens(t))
  {
    JoinedWords(TreeTokens(t));
  }

  /** Connecting a well-registered tree links the first layer registered under each name. */
  lemma {:induction false} ConnectIssuesTreeLinks(table: seq<Layer>, t: Tree)
    requires Writable(t)
    requires Find(table, t.name) != null && Registered(table, TreeLinks(t))
    requires GroupDepth(t.group) <= 255
    ensures Connect(table, Join(TreeTokens(t))) ==
            Progress(Find(table, LastInGroup(t.name, t.group)), [], Resolve(table, TreeLinks(t)), None)
  {
    ConnectRuns(table, t);
    var k := |GroupTokens(t.group)|;
    assert TreeTokens(t)[..k + 1] == TreeTokens(t);
    StateBetweenTokens(table, t, k);
  }

  /** A tree deeper than the stack array makes some push store past its end. */
  lemma {:induction false} ConnectOverrunsStack(table: seq<Layer>, t: Tree)
    requires Writable(t)
    requires Find(table, t.name) != null && Registered(table, TreeLinks(t))
    requires GroupDepth(t.group) > 255
    ensures Connect(table, Join(TreeTokens(t))).fault == Some(StackOverrun)
  {
    ConnectRuns(table, t);
    var s := RunName(table, t.name, GroupTokens(t.group));
    DeepGroup(table, s, t.name, t.group);
  }

  /** With no link to make, the outcome does not depend on what is registered. */
  lemma {:induction false} LinklessTree(table: seq<Layer>, t: Tree)
    requires TreeLinks(t) == []
    ensures CarriedOut(Run(table, START, TreeTokens(t)), t) && GroupDepth(t.group) <= 1
  {
    var s := RunName(table, t.name, GroupTokens(t.group));
    match t.group
    case Bare =>
    case Bracket(Item(m, u, rest)) =>
    case Bracket(Nil) =>
      assert GroupTokens(t.group) == ["(", ")"] && ["(", ")"][1..] == [")"] && [")"][1..] == [];
      assert Run(table, s, ["(", ")"]) == Step(table, Step(table, s, "("), ")");
  }

  lemma {:induction false} FirstLinkParent(t: Tree)
    requires TreeLinks(t) != []
    ensures TreeLinks(t)[0].parent == t.name
  {
    var f := t.group.items;
    assert TreeLinks(t) == ForestLinks(t.name, f);
  }

  lemma {:induction false} CarriedOutOnlyRegistered(table: seq<Layer>, t: Tree, toks: seq<string>)
    requires CarriedOut(Run(table, START, toks), t)
    ensures Registered(table, TreeLinks(t))
  {
    RunOnlyRegistered(table, START, toks);
    var end, named := Run(table, START, toks), TreeLinks(t);
    forall i | 0 <= i < |named|
      ensures Find(table, named[i].parent) != null && Find(table, named[i].child) != null
    {
      assert end.links[i].parent in table && end.links[i].child in table;
    }
  }

  /**
   The exact condition: the text of a tree is carried out on a fresh manager if and only if both
   ends of every link are registered and at most 255 brackets are open at once.
   */
  lemma {:induction false} ConnectExactly(table: seq<Layer>, t: Tree)
    requires Writable(t)
    ensures CarriedOut(Connect(table, Join(TreeTokens(t))), t) <==>
            Registered(table, TreeLinks(t)) && GroupDepth(t.group) <= 255
  {
    ConnectRuns(table, t);
    if TreeLinks(t) == [] {
      LinklessTree(table, t);
    } else if Registered(table, TreeLinks(t)) {
      FirstLinkParent(t);
      if GroupDepth(t.group) <= 255 {
        ConnectIssuesTreeLinks(table, t);
      } else {
        ConnectOverrunsStack(table, t);
      }
    } else if CarriedOut(Connect(table, Join(TreeTokens(t))), t) {
      CarriedOutOnlyRegistered(table, t, TreeTokens(t));
    }
  }

  // -------- How deep --------

  /** A layer bracketed inside itself, `n` deep. */
  function Nested(name: string, n: nat): Group {
    if n == 0 then Bare else Bracket(Item(UpperUnder, Tree(name, Nested(name, n - 1)), Nil))
  }

  lemma {:induction false} NestedShape(table: seq<Layer>, name: string, n: nat)
    requires IsWord("*" + name) && Find(table, name) != null
    ensures GroupDepth(Nested(name, n)) == n
    ensures AllWords(GroupTokens(Nested(name, n))) && Registered(table, GroupLinks(name, Nested(name, n)))
  {
    if n > 0 {
      var inner := Nested(name, n - 1);
      NestedShape(table, name, n - 1);
      var f := Item(UpperUnder, Tree(name, inner), Nil);
      assert ForestDepth(Nil) == 0 && ForestDepth(f) == GroupDepth(inner);
      assert [ModeChar(UpperUnder)] + name == "*" + name;
      assert ForestTokens(f) == ["*" + name] + GroupTokens(inner) + [];
      assert GroupTokens(Nested(name, n)) == ["("] + ForestTokens(f) + [")"];
      assert IsWord("(") && IsWord(")");
      assert ForestLinks(name, Nested(name, n).items) == [NamedLink(UpperUnder, name, name)] + GroupLinks(name, inner);
    }
  }

  /** A registered layer can be bracketed inside itself 255 times, and not 256 times. */
  lemma {:induction false} NestedExactly(table: seq<Layer>, name: string, n: nat)
    requires name != "" && IsWord("*" + name) && Find(table, name) != null
    ensures var t := Tree(name, Nested(name, n)); var end := Connect(table, Join(TreeTokens(t)));
      && (CarriedOut(end, t) <==> n <= 255)
      && (n >= 256 ==> end.fault == Some(StackOverrun))
  {
    var t := Tree(name, Nested(name, n));
    NestedShape(table, name, n);
    assert forall i | 0 <= i < |name| :: name[i] == ("*" + name)[i + 1];
    assert Writable(t);
    ConnectExactly(table, t);
    if n > 255 {
      ConnectOverrunsStack(table, t);
    }
  }

  // -------- Other token lists --------

  lemma {:induction false} RunTwo(table: seq<Layer>, s: Progress, a: string, b: string, toks: seq<string>)
    ensures Run(table, s, [a, b] + toks) == Run(table, Step(table, Step(table, s, a), b), toks)
  {
    assert ([a, b] + toks)[1..] == [b] + toks && ([b] + toks)[1..] == toks;
  }

  /** The three kinds of link by their characters: both ways, above the parent, below the parent. */
  lemma {:induction false} ModesByCharacter(table: seq<Layer>, a: string, b: string, c: string, d: string)
    requires Find(table, a) != null && Find(table, b) != null && Find(table, c) != null && Find(table, d) != null
    ensures var parent := Find(table, a);
      Run(table, START, [a, "(", "*" + b, "+" + c, "-" + d, ")"]) ==
      Progress(Find(table, d), [],
               [Link(UpperUnder, parent, Find(table, b)), Link(Upper, parent, Find(table, c)),
                Link(Under, parent, Find(table, d))], None)
  {
    var parent := Find(table, a);
    var inside := Progress(parent, [parent], [], None);
    RunTwo(table, START, a, "(", ["*" + b, "+" + c, "-" + d, ")"]);
    assert [a, "("] + ["*" + b, "+" + c, "-" + d, ")"] == [a, "(", "*" + b, "+" + c, "-" + d, ")"];
    assert Step(table, Step(table, START, a), "(") == inside;
    var two := Step(table, Step(table, inside, "*" + b), "+" + c);
    RunTwo(table, inside, "*" + b, "+" + c, ["-" + d, ")"]);
    assert ["*" + b, "+" + c] + ["-" + d, ")"] == ["*" + b, "+" + c, "-" + d, ")"];
    assert ("*" + b)[1..] == b && ("+" + c)[1..] == c && ("-" + d)[1..] == d;
    assert two == Progress(Find(table, c), [parent],
      [Link(UpperUnder, parent, Find(table, b)), Link(Upper, parent, Find(table, c))], None);
    RunTwo(table, two, "-" + d, ")", []);
    assert ["-" + d, ")"] + [] == ["-" + d, ")"];
  }

  /** A name that no layer bears is passed over, and the next token is taken for the name. */
  lemma {:induction false} UnknownNameSkipped(table: seq<Layer>, name: string, toks: seq<string>)
    requires Find(table, name) == null
    ensures Run(table, START, [name] + toks) == Run(table, START, toks)
  {
    var s := RunName(table, name, toks);
  }

  /** A token without a mark takes the place of the layer before it, without its own first character. */
  lemma {:induction false} UnmarkedTokenRenames(table: seq<Layer>, a: string, c: char, b: string, toks: seq<string>)
    requires Find(table, a) != null && c !in "()*+-"
    ensures Run(table, START, [a, [c] + b] + toks) == Run(table, START, [b] + toks)
  {
    RunTwo(table, START, a, [c] + b, toks);
    assert ([c] + b)[1..] == b;
    var s := RunName(table, b, toks);
  }

  /** A closing bracket too many changes nothing. */
  lemma {:induction false} ExtraClosingIgnored(table: seq<Layer>, a: string, toks: seq<string>)
    requires Find(table, a) != null
    ensures Run(table, START, [a, ")"] + toks) == Run(table, START, [a] + toks)
  {
    RunTwo(table, START, a, ")", toks);
    var s := RunName(table, a, toks);
  }

  /** A link outside all brackets is a call through NULL, and an empty token a name out of bounds. */
  lemma {:induction false} FaultyTokens(table: seq<Layer>, a: string, c: char, b: string, toks: seq<string>)
    requires Find(table, a) != null && c in "*+-"
    ensures Run(table, START, [a, [c] + b] + toks).fault == Some(NullTop)
    ensures Run(table, START, [a, ""] + toks).fault == Some(StaleName)
  {
    RunTwo(table, START, a, [c] + b, toks);
    RunTwo(table, START, a, "", toks);
    RunFaulted(table, Step(table, Step(table, START, a), [c] + b), toks);
    RunFaulted(table, Step(table, Step(table, START, a), ""), toks);
  }

  // -------- Two groups after one name --------

  /**
   A second bracket group after the same name belongs to the last layer named inside the first
   one, because a closing bracket does not restore `pLayer`.
   */
  lemma {:induction false} SecondGroupBelongsToLastName(table: seq<Layer>, name: string, f: Forest, g: Forest)
    requires Find(table, name) != null
    requires Registered(table, ForestLinks(name, f)) && Registered(table, ForestLinks(LastInForest(name, f), g))
    requires ForestDepth(f) < 255 && ForestDepth(g) < 255
    ensures Run(table, START, [name] + GroupTokens(Bracket(f)) + GroupTokens(Bracket(g))).links ==
            Resolve(table, ForestLinks(name, f)) + Resolve(table, ForestLinks(LastInForest(name, f), g))
  {
    var t, u := Tree(name, Bracket(f)), Tree(LastInForest(name, f), Bracket(g));
    var a, b := GroupTokens(t.group), GroupTokens(u.group);
    assert [name] + a + b == [name] + (a + b);
    var s := RunName(table, name, a + b);
    RunConcat(table, s, a, b);
    var s1 := AfterTree(table, s, t);
    var s2 := AfterTree(table, s1, u);
    assert s1.links == Resolve(table, TreeLinks(t));
  }

  /** The links of a forest under two parents are the same calls exactly if the parents are one layer. */
  lemma {:induction false} SameCallsUnder(table: seq<Layer>, p: string, q: string, f: Forest)
    ensures Resolve(table, ForestLinks(p, f)) == Resolve(table, ForestLinks(q, f)) <==>
            f.Nil? || Find(table, p) == Find(table, q)
    decreases f
  {
    if f.Item? {
      var a, b := Resolve(table, ForestLinks(p, f)), Resolve(table, ForestLinks(q, f));
      assert a[0].parent == Find(table, p) && b[0].parent == Find(table, q);
      if Find(table, p) == Find(table, q) {
        SameCallsUnder(table, p, q, f.rest);
        ItemCalls(table, p, f);
        ItemCalls(table, q, f);
      }
    }
  }

  lemma {:induction false} ItemCalls(table: seq<Layer>, p: string, f: Forest)
    requires f.Item?
    ensures Resolve(table, ForestLinks(p, f)) ==
            [Link(f.mode, Find(table, p), Find(table, f.tree.name))] + Resolve(table, TreeLinks(f.tree)) +
            Resolve(table, ForestLinks(p, f.rest))
  {
    assert ForestLinks(p, f) == [NamedLink(f.mode, p, f.tree.name)] + TreeLinks(f.tree) + ForestLinks(p, f.rest);
  }

  /**
   So a second bracket group belongs to the name it follows exactly when it is empty or the last
   layer named inside the first group is the named layer itself.
   */
  lemma {:induction false} SecondGroupBelongsExactly(table: seq<Layer>, name: string, f: Forest, g: Forest)
    requires Find(table, name) != null
    requires Registered(table, ForestLinks(name, f)) && Registered(table, ForestLinks(LastInForest(name, f), g))
    requires ForestDepth(f) < 255 && ForestDepth(g) < 255
    ensures Run(table, START, [name] + GroupTokens(Bracket(f)) + GroupTokens(Bracket(g))).links ==
            Resolve(table, ForestLinks(name, f)) + Resolve(table, ForestLinks(name, g))
            <==> g.Nil? || Find(table, LastInForest(name, f)) == Find(table, name)
  {
    SecondGroupBelongsToLastName(table, name, f, g);
    SameCallsUnder(table, LastInForest(name, f), name, g);
    var a := Resolve(table, ForestLinks(name, f));
    var b, c := Resolve(table, ForestLinks(LastInForest(name, f), g)), Resolve(table, ForestLinks(name, g));
    assert (a + b)[|a|..] == b && (a + c)[|a|..] == c;
  }
}
