/**
 `CLayerManager`: the layer table, the heap list of tokens, the fixed stack and the interpreter
 that issues link calls. `BaseLayer.cpp` is not part of this model, so a link call is recorded
 as an event.
 */
module LayerManager {
  import opened Common
  import opened LayerNotation

  const MAX_LAYER_NUMBER := 0xff

  class Layer {
    const name: string

    constructor (name: string)
      ensures this.name == name
    {
      this.name := name;
    }
  }

  class Node {
    const token: Token
    var next: Node?

    constructor (token: Token)
      ensures this.token == token && next == null
    {
      this.token := token;
      this.next := null;
    }
  }

  /** One call of `SetUpperUnderLayer`, `SetUpperLayer` or `SetUnderLayer` on `parent`. */
  datatype Link = Link(mode: Mode, parent: Layer?, child: Layer?)

  // -------- Specification of the interpreter --------

  /** Where `LinkLayer` stands between two tokens; `cur` is its local `pLayer`. */
  datatype Progress = Progress(cur: Layer?, stack: seq<Layer?>, links: seq<Link>, fault: Option<Fault>)

  /** The first layer registered under a name, or null. */
  function Find(table: seq<Layer>, name: string): (l: Layer?)
    ensures l == null <==> forall i | 0 <= i < |table| :: table[i].name != name
    ensures l != null ==> l.name == name && l in table
  {
    if table == [] then null
    else if table[0].name == name then table[0]
    else Find(table[1..], name)
  }

  /** `Find` searches from the front: the layer found is the first one that bears the name. */
  lemma {:induction false} FindIsFirst(table: seq<Layer>, name: string)
    ensures Find(table, name) == null <==> forall i | 0 <= i < |table| :: table[i].name != name
    ensures Find(table, name) != null ==>
      exists i | 0 <= i < |table| ::
        table[i] == Find(table, name) && table[i].name == name && forall j | 0 <= j < i :: table[j].name != name
  {
    if table != [] && table[0].name != name && Find(table, name) != null {
      FindIsFirst(table[1..], name);
      var i :| 0 <= i < |table[1..]| && table[1..][i] == Find(table[1..], name) &&
        forall j | 0 <= j < i :: table[1..][j].name != name;
      assert table[i + 1] == Find(table, name);
      forall j | 0 <= j < i + 1 ensures table[j].name != name {
        assert j > 0 ==> table[j] == table[1..][j - 1];
      }
    }
  }

  /** The first character of a C string, and the C string after it. */
  function Head(tok: string): char { if tok == "" then '\0' else tok[0] }
  function Tail(tok: string): string { if tok == "" then "" else tok[1..] }

  function ModeOf(c: char): Option<Mode> {
    if c == '*' then Some(UpperUnder)
    else if c == '+' then Some(Upper)
    else if c == '-' then Some(Under)
    else None
  }

  function Pushed(s: Progress): Progress {
    if |s.stack| > MAX_LAYER_NUMBER then s
    else if |s.stack| == MAX_LAYER_NUMBER then s.(fault := Some(StackOverrun))
    else s.(stack := s.stack + [s.cur])
  }

  function Popped(stack: seq<Layer?>): seq<Layer?> {
    if stack == [] then [] else stack[..|stack| - 1]
  }

  function Top(stack: seq<Layer?>): Layer? {
    if stack == [] then null else stack[|stack| - 1]
  }

  function Step(table: seq<Layer>, s: Progress, tok: string): Progress {
    if s.fault.Some? then s
    else if s.cur == null then s.(cur := Find(table, tok))
    else if Head(tok) == '(' then Pushed(s)
    else if Head(tok) == ')' then s.(stack := Popped(s.stack))
    else if tok == "" then s.(fault := Some(StaleName))
    else
      var s' := s.(cur := Find(table, Tail(tok)));
      match ModeOf(Head(tok))
      case None => s'
      case Some(mode) =>
        var top := Top(s.stack);
        if top == null then s'.(fault := Some(NullTop))
        else s'.(links := s.links + [Link(mode, top, s'.cur)])
  }

  function Run(table: seq<Layer>, s: Progress, toks: seq<string>): Progress
    decreases |toks|
  {
    if toks == [] then s else Run(table, Step(table, s, toks[0]), toks[1..])
  }

  lemma {:induction false} RunConcat(table: seq<Layer>, s: Progress, a: seq<string>, b: seq<string>)
    ensures Run(table, s, a + b) == Run(table, Run(table, s, a), b)
    decreases |a|
  {
    if a == [] {
      assert a + b == b;
    } else {
      RunConcat(table, Step(table, s, a[0]), a[1..], b);
      assert (a + b)[1..] == a[1..] + b;
    }
  }

  lemma {:induction false} RunFaulted(table: seq<Layer>, s: Progress, toks: seq<string>)
    requires s.fault.Some?
    ensures Run(table, s, toks) == s
    decreases |toks|
  {
    if toks != [] {
      RunFaulted(table, s, toks[1..]);
    }
  }

  /** `MakeList` has stored `done` of the tokens `all`, and stands at `pcList` or has stopped. */
  ghost predicate Resumes(all: Made, done: seq<string>, fault: Option<Fault>, pcList: Option<string>) {
    match pcList
    case None => all == Made(done, fault)
    case Some(p) => fault == None && all == Made(done + MakeTokens(p).tokens, MakeTokens(p).fault)
  }

  lemma {:induction false} ResumesStopped(all: Made, done: seq<string>, p: string)
    requires Resumes(all, done, None, Some(p)) && MakeTokens(p).tokens == []
    ensures Resumes(all, done, MakeTokens(p).fault, None)
  {
    assert done + [] == done;
  }

  lemma {:induction false} ResumesNext(all: Made, done: seq<string>, p: string)
    requires Resumes(all, done, None, Some(p)) && ScanWord(p) != "" && |Buffered(ScanWord(p))| < 50
    ensures Resumes(all, done + [Buffered(ScanWord(p))], None, AfterBlank(p))
  {
    var word, made := Buffered(ScanWord(p)), MakeTokens(p);
    match AfterBlank(p)
    case None =>
      assert made == Made([word], None);
    case Some(rest) =>
      var more := MakeTokens(rest);
      assert made == Made([word] + more.tokens, more.fault);
      assert done + made.tokens == done + [word] + more.tokens;
  }

  /** What `ConnectLayers` does on a manager whose list and stack are empty. */
  function Connect(table: seq<Layer>, text: string): Progress {
    var made := MakeTokens(text);
    var start := Progress(null, [], [], None);
    if made.fault.Some? then start.(fault := made.fault)
    else Run(table, start, made.tokens)
  }

  lemma {:induction false} FreshStart(table: seq<Layer>, text: string)
    ensures var made := MakeTokens(text);
      Connect(table, text) == if made.fault.Some? then Progress(null, [], [], made.fault)
                              else Run(table, Progress(null, [], [], None), made.tokens)
  {
  }

  // -------- The class --------

  function TokensOf(nodes: seq<Node>): (toks: seq<string>)
    ensures |toks| == |nodes|
    ensures forall i | 0 <= i < |nodes| :: toks[i] == nodes[i].token
  {
    seq(|nodes|, i requires 0 <= i < |nodes| => nodes[i].token)
  }

  class Manager {
    var m_nTop: int
    const mp_Stack: array<Layer?>
    var mp_sListHead: Node?
    var mp_sListTail: Node?
    var m_nLayerCount: nat
    const mp_aLayers: array<Layer?>
    /** The link calls issued so far. */
    var links: seq<Link>
    /** The list nodes from head to tail. */
    ghost var nodes: seq<Node>

    ghost predicate ListValid()
      reads this, nodes
    {
      && (forall i, j | 0 <= i < j < |nodes| :: nodes[i] != nodes[j])
      && (forall i, j | 0 <= i < |nodes| && j == i + 1 < |nodes| :: nodes[i].next == nodes[j])
      && (nodes == [] ==> mp_sListHead == mp_sListTail == null)
      && (nodes != [] ==>
            && mp_sListHead == nodes[0]
            && mp_sListTail == nodes[|nodes| - 1]
            && mp_sListTail.next == null)
    }

    ghost predicate Valid()
      reads this, mp_Stack, mp_aLayers, nodes
    {
      && ListValid()
      && mp_Stack != mp_aLayers
      && mp_Stack.Length == mp_aLayers.Length == MAX_LAYER_NUMBER
      && -1 <= m_nTop < MAX_LAYER_NUMBER
      && m_nLayerCount <= MAX_LAYER_NUMBER
      && forall i | 0 <= i < m_nLayerCount :: mp_aLayers[i] != null
    }

    ghost function Stack(): seq<Layer?>
      reads this, mp_Stack
      requires -1 <= m_nTop < mp_Stack.Length
    {
      mp_Stack[..m_nTop + 1]
    }

    ghost function Table(): seq<Layer>
      reads this, mp_Stack, mp_aLayers, nodes
      requires Valid()
    {
      mp_aLayers[..m_nLayerCount]
    }

    constructor ()
      ensures Valid() && Stack() == [] && Table() == [] && nodes == [] && links == []
      ensures fresh(mp_Stack) && fresh(mp_aLayers)
    {
      m_nLayerCount := 0;
      mp_sListHead, mp_sListTail := null, null;
      m_nTop := -1;
      mp_Stack := new Layer?[MAX_LAYER_NUMBER](_ => null);
      mp_aLayers := new Layer?[MAX_LAYER_NUMBER](_ => null);
      links, nodes := [], [];
    }

    /** Nothing guards the table: with 255 layers in it, the next store is one cell past its end. */
    method AddLayer(pLayer: Layer) returns (fault: Option<Fault>)
      requires Valid()
      modifies this`m_nLayerCount, mp_aLayers
      ensures Valid()
      ensures fault == if |old(Table())| == 255 then Some(TableOverrun) else None
      ensures Table() == if fault == None then old(Table()) + [pLayer] else old(Table())
    {
      if m_nLayerCount >= mp_aLayers.Length {
        return Some(TableOverrun);
      }
      mp_aLayers[m_nLayerCount] := pLayer;
      m_nLayerCount := m_nLayerCount + 1;
      fault := None;
    }

    method GetLayer(pName: string) returns (pLayer: Layer?)
      requires Valid()
      ensures pLayer == Find(Table(), pName)
    {
      var i := 0;
      while i < m_nLayerCount
        invariant i <= m_nLayerCount
        invariant Find(Table(), pName) == Find(Table()[i..], pName)
      {
        assert Table()[i..][1..] == Table()[i + 1..];
        if pName == mp_aLayers[i].name {
          return mp_aLayers[i];
        }
        i := i + 1;
      }
      return null;
    }

    /** The guard lets the index reach one past the array; that store is the fault. */
    method Push(pLayer: Layer?) returns (fault: Option<Fault>)
      requires -1 <= m_nTop && mp_Stack.Length == MAX_LAYER_NUMBER
      modifies this`m_nTop, mp_Stack
      ensures fault == if old(m_nTop) + 1 == 255 then Some(StackOverrun) else None
      ensures old(m_nTop) + 1 < 255 ==>
        m_nTop == old(m_nTop) + 1 && Stack() == old(mp_Stack[..m_nTop + 1]) + [pLayer]
      ensures old(m_nTop) + 1 >= 255 ==> m_nTop == old(m_nTop) && mp_Stack[..] == old(mp_Stack[..])
    {
      if m_nTop >= MAX_LAYER_NUMBER {
        return None;
      }
      if m_nTop + 1 >= mp_Stack.Length {
        return Some(StackOverrun);
      }
      m_nTop := m_nTop + 1;
      mp_Stack[m_nTop] := pLayer;
      fault := None;
    }

    method Pop() returns (pLayer: Layer?)
      requires -1 <= m_nTop < mp_Stack.Length
      modifies this`m_nTop, mp_Stack
      ensures -1 <= m_nTop < mp_Stack.Length
      ensures pLayer == Top(old(Stack())) && Stack() == Popped(old(Stack()))
    {
      if m_nTop < 0 {
        return null;
      }
      pLayer := mp_Stack[m_nTop];
      mp_Stack[m_nTop] := null;
      m_nTop := m_nTop - 1;
    }

    method GetTop() returns (pLayer: Layer?)
      requires -1 <= m_nTop < mp_Stack.Length
      ensures pLayer == Top(Stack())
    {
      if m_nTop < 0 {
        return null;
      }
      pLayer := mp_Stack[m_nTop];
    }

    /** Appends to the heap list: the old nodes keep their order and the new one is last. */
    method AddNode(pNode: Node)
      requires Valid() && pNode !in nodes && pNode.next == null
      modifies this`mp_sListHead, this`mp_sListTail, this`nodes, mp_sListTail
      ensures Valid() && nodes == old(nodes) + [pNode]
      ensures Table() == old(Table()) && Stack() == old(Stack())
    {
      if mp_sListHead == null {
        mp_sListHead, mp_sListTail := pNode, pNode;
      } else {
        mp_sListTail.next := pNode;
        mp_sListTail := pNode;
      }
      nodes := nodes + [pNode];
    }

    /** `AllocNode` and `AddNode` for one token. */
    method Append(tok: Token)
      requires Valid()
      modifies this`mp_sListHead, this`mp_sListTail, this`nodes, mp_sListTail
      ensures Valid() && Table() == old(Table()) && Stack() == old(Stack())
      ensures |nodes| == |old(nodes)| + 1 && old(nodes) <= nodes && fresh(nodes[|old(nodes)|])
      ensures TokensOf(nodes) == TokensOf(old(nodes)) + [tok]
    {
      var pNode := new Node(tok);
      AddNode(pNode);
    }

    /** One turn of `MakeList`'s loop: the scratch buffer, the next node, and where to go on. */
    method ListToken(pcList: string, ghost all: Made) returns (fault: Option<Fault>, next: Option<string>)
      requires Valid() && Resumes(all, TokensOf(nodes), None, Some(pcList))
      modifies this`mp_sListHead, this`mp_sListTail, this`nodes, mp_sListTail
      ensures Valid() && Table() == old(Table()) && Stack() == old(Stack())
      ensures old(nodes) <= nodes && forall i | |old(nodes)| <= i < |nodes| :: fresh(nodes[i])
      ensures Resumes(all, TokensOf(nodes), fault, next)
      ensures next.Some? ==> |next.value| < |pcList|
    {
      var sBuff := ScanWord(pcList);
      if sBuff == "" {
        ResumesStopped(all, TokensOf(nodes), pcList);
        return Some(BlankText), None;
      }
      if |Buffered(sBuff)| >= 50 {
        ResumesStopped(all, TokensOf(nodes), pcList);
        return Some(LongToken), None;
      }
      ResumesNext(all, TokensOf(nodes), pcList);
      Append(Buffered(sBuff));
      return None, AfterBlank(pcList);
    }

    method MakeList(text: string) returns (fault: Option<Fault>)
      requires Valid()
      modifies this`mp_sListHead, this`mp_sListTail, this`nodes, nodes
      ensures Valid() && Table() == old(Table()) && Stack() == old(Stack())
      ensures old(nodes) <= nodes && forall i | |old(nodes)| <= i < |nodes| :: fresh(nodes[i])
      ensures TokensOf(nodes) == TokensOf(old(nodes)) + MakeTokens(text).tokens
      ensures fault == MakeTokens(text).fault
    {
      var pcList := Some(text);
      fault := None;
      ghost var table, stack, was := Table(), Stack(), nodes;
      ghost var all := Made(TokensOf(nodes) + MakeTokens(text).tokens, MakeTokens(text).fault);
      while pcList.Some?
        invariant Valid() && Table() == table && Stack() == stack
        invariant was <= nodes && forall i | |was| <= i < |nodes| :: fresh(nodes[i])
        invariant Resumes(all, TokensOf(nodes), fault, pcList)
        decreases if pcList.Some? then 1 + |pcList.value| else 0
      {
        fault, pcList := ListToken(pcList.value, all);
      }
    }

    /** The body of `LinkLayer`'s loop, for a local `pLayer` that holds `cur`. */
    method LinkToken(cur: Layer?, tok: Token) returns (fault: Option<Fault>, pLayer: Layer?)
      requires Valid()
      modifies this`m_nTop, this`links, mp_Stack
      ensures Valid() && Table() == old(Table())
      ensures Progress(pLayer, Stack(), links, fault) ==
              Step(Table(), Progress(cur, old(Stack()), old(links), None), tok)
    {
      pLayer := cur;
      fault := None;
      if pLayer == null {
        pLayer := GetLayer(tok);
      } else if Head(tok) == '(' {
        fault := Push(pLayer);
      } else if Head(tok) == ')' {
        var _ := Pop();
      } else if tok == "" {
        fault := Some(StaleName);
      } else {
        var cMode := Head(tok);
        var pcName := Tail(tok);
        pLayer := GetLayer(pcName);
        var mode := ModeOf(cMode);
        if mode.Some? {
          var top := GetTop();
          if top == null {
            fault := Some(NullTop);
          } else {
            links := links + [Link(mode.value, top, pLayer)];
          }
        }
      }
    }

    /** Interprets the list from its head; `last` is the final value of the local `pLayer`. */
    method LinkLayer(pList: Node?) returns (fault: Option<Fault>, ghost last: Layer?)
      requires Valid() && pList == mp_sListHead
      modifies this`m_nTop, this`links, mp_Stack
      ensures Valid() && Table() == old(Table())
      ensures Progress(last, Stack(), links, fault) ==
              Run(Table(), Progress(null, old(Stack()), old(links), None), TokensOf(nodes))
    {
      var pNode := pList;
      var pLayer: Layer? := null;
      fault := None;
      ghost var i := 0;
      ghost var toks := TokensOf(nodes);
      ghost var start := Progress(null, Stack(), links, None);
      while pNode != null && fault == None
        invariant Valid() && Table() == old(Table())
        invariant 0 <= i <= |nodes| && pNode == (if i < |nodes| then nodes[i] else null)
        invariant Run(Table(), start, toks) == Run(Table(), Progress(pLayer, Stack(), links, fault), toks[i..])
        decreases |nodes| - i
      {
        assert toks[i..][1..] == toks[i + 1..];
        fault, pLayer := LinkToken(pLayer, pNode.token);
        pNode := pNode.next;
        i := i + 1;
      }
      if fault.Some? {
        RunFaulted(Table(), Progress(pLayer, Stack(), links, fault), toks[i..]);
      }
      last := pLayer;
    }

    /** Both calls in turn; the list is not cleared in between or afterwards. */
    method ConnectLayers(pcList: string) returns (fault: Option<Fault>)
      requires Valid()
      modifies this`m_nTop, this`links, this`mp_sListHead, this`mp_sListTail, this`nodes, nodes, mp_Stack
      ensures Valid() && Table() == old(Table())
      ensures TokensOf(nodes) == TokensOf(old(nodes)) + MakeTokens(pcList).tokens
      ensures MakeTokens(pcList).fault.Some? ==>
        fault == MakeTokens(pcList).fault && Stack() == old(Stack()) && links == old(links)
      ensures MakeTokens(pcList).fault == None ==>
        var end := Run(Table(), Progress(null, old(Stack()), old(links), None), TokensOf(nodes));
        fault == end.fault && Stack() == end.stack && links == end.links
      ensures old(nodes) == [] && old(Stack()) == [] && old(links) == [] ==>
        var end := Connect(Table(), pcList);
        fault == end.fault && Stack() == end.stack && links == end.links
    {
      fault := MakeList(pcList);
      if fault == None {
        ghost var last;
        fault, last := LinkLayer(mp_sListHead);
      }
      if old(nodes) == [] {
        assert TokensOf(nodes) == MakeTokens(pcList).tokens;
        FreshStart(Table(), pcList);
      }
    }
  }
}
