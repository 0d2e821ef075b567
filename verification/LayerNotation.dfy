/**
 The bracket notation for a layer stack: how `MakeList` cuts the text into tokens, and what
 the notation means as a tree of layers. A C string is the sequence of characters before
 its terminator.
 */
module LayerNotation {
  import opened Common
  import opened Text

  // -------- Tokens --------

  /** What a node's 50-character buffer holds: room for 49 characters and the terminator. */
  type Token = s: string | |s| < 50

  /** Where the C program's behaviour is no longer defined by what it wrote itself. */
  datatype Fault =
    | BlankText     // `sscanf_s` matched nothing: the scratch buffer keeps stale characters
    | LongToken     // the word fits the scratch buffer but not a node's token buffer
    | StackOverrun  // a store one cell past the stack array
    | TableOverrun  // a store one cell past the layer table
    | NullTop       // a link call through the NULL that `Top` returns
    | StaleName     // a name read from beyond the terminator of an empty token

  predicate NoSpace(s: string) {
    forall i | 0 <= i < |s| :: !IsSpace(s[i])
  }

  /** A word that survives a trip through the tokeniser. */
  predicate IsWord(s: string) {
    0 < |s| < 50 && NoSpace(s)
  }

  predicate AllWords(words: seq<string>) {
    forall i | 0 <= i < |words| :: IsWord(words[i])
  }

  /** The longest whitespace-free prefix. */
  function Word(s: string): (w: string)
    ensures NoSpace(w) && w <= s
    ensures |w| < |s| ==> IsSpace(s[|w|])
  {
    if s == "" || IsSpace(s[0]) then "" else [s[0]] + Word(s[1..])
  }

  /** `sscanf_s(s, "%s", ..)`: the first word, or "" when nothing matches. */
  function ScanWord(s: string): (w: string)
    ensures NoSpace(w)
  {
    Word(SkipSpace(s))
  }

  /** `strchr(s, ' ') + 1`: the text after the first blank; `None` stands for NULL + 1. */
  function AfterBlank(s: string): (rest: Option<string>)
    ensures rest == None <==> ' ' !in s
    ensures rest.Some? ==> |rest.value| < |s| && rest.value == s[|s| - |rest.value|..]
  {
    if s == "" then None
    else if s[0] == ' ' then Some(s[1..])
    else AfterBlank(s[1..])
  }

  /** `sscanf_s` into 100 characters: a word that does not fit leaves the empty string. */
  function Buffered(word: string): string {
    if |word| >= 100 then "" else word
  }

  /** The tokens stored so far, and the fault that stopped the tokeniser, if any. */
  datatype Made = Made(tokens: seq<string>, fault: Option<Fault>)

  /** What `MakeList` appends to the node list. */
  function MakeTokens(text: string): (made: Made)
    ensures made.fault == None ==> made.tokens != []
    decreases |text|
  {
    var word := ScanWord(text);
    if word == "" then Made([], Some(BlankText))
    else if |Buffered(word)| >= 50 then Made([], Some(LongToken))
    else
      match AfterBlank(text)
      case None => Made([Buffered(word)], None)
      case Some(rest) =>
        var more := MakeTokens(rest);
        Made([Buffered(word)] + more.tokens, more.fault)
  }

  /** Tokens written with one blank between them. */
  function Join(words: seq<string>): string
    requires words != []
  {
    if |words| == 1 then words[0] else words[0] + " " + Join(words[1..])
  }

  lemma {:induction false} WordAlone(w: string)
    requires NoSpace(w)
    ensures Word(w) == w && AfterBlank(w) == None
  {
    if w != "" {
      WordAlone(w[1..]);
    }
  }

  lemma {:induction false} WordStops(w: string, s: string)
    requires NoSpace(w) && w + " " <= s
    ensures Word(s) == w
  {
    if w == "" {
      assert s[0] == ' ';
    } else {
      assert s[0] == w[0] && w[1..] + " " <= s[1..];
      WordStops(w[1..], s[1..]);
    }
  }

  lemma {:induction false} BlankFound(w: string, s: string)
    requires NoSpace(w) && w + " " <= s
    ensures AfterBlank(s) == Some(s[|w| + 1..])
  {
    if w == "" {
      assert s[0] == ' ';
    } else {
      assert s[0] == w[0] && w[1..] + " " <= s[1..];
      BlankFound(w[1..], s[1..]);
      assert s[1..][|w|..] == s[|w| + 1..];
    }
  }

  /** Pieces that a node could hold, the empty one among them. */
  predicate AllShort(pieces: seq<string>) {
    forall i | 0 <= i < |pieces| :: |pieces[i]| < 50 && NoSpace(pieces[i])
  }

  lemma {:induction false} ScanPiece(w: string, rest: string)
    requires NoSpace(w)
    ensures ScanWord(w) == w && AfterBlank(w) == None
    ensures ScanWord(w + " " + rest) == if w == "" then ScanWord(rest) else w
    ensures AfterBlank(w + " " + rest) == Some(rest)
  {
    WordAlone(w);
    var text := w + " " + rest;
    assert text[|w| + 1..] == rest;
    BlankFound(w, text);
    if w == "" {
      assert text[0] == ' ' && text[1..] == rest;
    } else {
      assert text[0] == w[0];
      WordStops(w, text);
    }
  }

  lemma {:induction false} FirstWord(w: string, rest: string)
    requires IsWord(w)
    ensures MakeTokens(w + " " + rest) == Made([w] + MakeTokens(rest).tokens, MakeTokens(rest).fault)
  {
    ScanPiece(w, rest);
  }

  lemma {:induction false} JoinedWords(words: seq<string>)
    requires words != [] && AllWords(words)
    ensures MakeTokens(Join(words)) == Made(words, None)
  {
    var w := words[0];
    if |words| == 1 {
      ScanPiece(w, "");
    } else {
      JoinedWords(words[1..]);
      FirstWord(w, Join(words[1..]));
    }
  }

  /** A stored token is a word that fits a node, or empty. */
  predicate Storable(s: string) { s == "" || IsWord(s) }

  lemma {:induction false} StoredTokens(text: string)
    ensures forall i | 0 <= i < |MakeTokens(text).tokens| :: Storable(MakeTokens(text).tokens[i])
    decreases |text|
  {
    var word, rest, toks := ScanWord(text), AfterBlank(text), MakeTokens(text).tokens;
    if word != "" && |Buffered(word)| < 50 {
      var more := if rest == None then [] else MakeTokens(rest.value).tokens;
      assert toks == [Buffered(word)] + more;
      if rest.Some? {
        StoredTokens(rest.value);
      }
      forall i | 0 <= i < |toks| ensures Storable(toks[i]) {
        assert i > 0 ==> toks[i] == more[i - 1];
      }
    }
  }

  /** Joining short pieces makes no long word, so only words are stored. */
  lemma {:induction false} ShortPiecesMakeWords(pieces: seq<string>)
    requires pieces != [] && AllShort(pieces)
    ensures |ScanWord(Join(pieces))| < 50
    ensures AllWords(MakeTokens(Join(pieces)).tokens)
  {
    var w, text := pieces[0], Join(pieces);
    if |pieces| == 1 {
      ScanPiece(w, "");
    } else {
      ScanPiece(w, Join(pieces[1..]));
      ShortPiecesMakeWords(pieces[1..]);
    }
  }

  /** The tokeniser undoes joining exactly when every piece is a word that fits a node. */
  lemma {:induction false} MakeTokensUndoesJoin(pieces: seq<string>)
    requires pieces != []
    ensures MakeTokens(Join(pieces)) == Made(pieces, None) <==> AllWords(pieces)
  {
    if AllWords(pieces) {
      JoinedWords(pieces);
    } else if MakeTokens(Join(pieces)) == Made(pieces, None) {
      StoredTokens(Join(pieces));
      assert forall i | 0 <= i < |pieces| :: Storable(pieces[i]);
      ShortPiecesMakeWords(pieces);
    }
  }

  /** An extra blank in front of a text makes its first word come out once more. */
  lemma {:induction false} ExtraBlankRepeatsWord(text: string)
    requires 0 < |ScanWord(text)| < 50
    ensures MakeTokens(" " + text) == Made([ScanWord(text)] + MakeTokens(text).tokens, MakeTokens(text).fault)
    ensures MakeTokens(text).tokens != [] && MakeTokens(text).tokens[0] == ScanWord(text)
  {
    assert (" " + text)[1..] == text;
  }

  /** So between two words a doubled blank repeats the second one. */
  lemma {:induction false} DoubleBlankRepeatsWord(w: string, text: string)
    requires IsWord(w) && 0 < |ScanWord(text)| < 50
    ensures MakeTokens(w + " " + (" " + text)) ==
            Made([w, ScanWord(text)] + MakeTokens(text).tokens, MakeTokens(text).fault)
  {
    ExtraBlankRepeatsWord(text);
    FirstWord(w, " " + text);
    TwoTokens(w, ScanWord(text), MakeTokens(text).tokens);
  }

  lemma {:induction false} TwoTokens(a: string, b: string, more: seq<string>)
    ensures [a] + ([b] + more) == [a, b] + more
  {
  }

  // -------- What the tokeniser makes of other texts --------

  /** A token of one word: up to 49 characters are stored, from 100 on an empty token is. */
  lemma {:induction false} WordLengths(w: string)
    requires w != "" && NoSpace(w)
    ensures MakeTokens(w) == if |w| <= 49 then Made([w], None)
                             else if |w| <= 99 then Made([], Some(LongToken))
                             else Made([""], None)
  {
    ScanPiece(w, "");
  }

  lemma {:induction false} Regroup(x: string, y: string, z: string)
    ensures (x + " " + y) + " " + z == x + " " + (y + " " + z)
  {
  }

  lemma {:induction false} FrontOf(words: seq<string>, more: seq<string>)
    requires words != []
    ensures words + more == [words[0]] + (words[1..] + more)
  {
  }

  lemma {:induction false} JoinedThen(words: seq<string>, rest: string)
    requires words != [] && AllWords(words)
    ensures MakeTokens(Join(words) + " " + rest) == Made(words + MakeTokens(rest).tokens, MakeTokens(rest).fault)
  {
    var w, made := words[0], MakeTokens(rest);
    if |words| == 1 {
      FirstWord(w, rest);
      assert words == [w];
    } else {
      var tail := Join(words[1..]);
      JoinedThen(words[1..], rest);
      FirstWord(w, tail + " " + rest);
      assert Join(words) == w + " " + tail;
      Regroup(w, tail, rest);
      FrontOf(words, made.tokens);
    }
  }

  /** A blank at the end, with or without more white space, is one token too many. */
  lemma {:induction false} TrailingBlankFaults(words: seq<string>, tail: string)
    requires words != [] && AllWords(words) && AllWhite(tail)
    ensures MakeTokens(Join(words) + " " + tail) == Made(words, Some(BlankText))
  {
    JoinedThen(words, tail);
    SkipsWhite(tail, "");
    assert tail + "" == tail && words + [] == words;
  }

  lemma {:induction false} WordStopsAt(w: string, c: char, rest: string)
    requires NoSpace(w) && IsSpace(c)
    ensures Word(w + [c] + rest) == w
  {
    var s := w + [c] + rest;
    if w == "" {
      assert s[0] == c;
    } else {
      assert s[0] == w[0] && s[1..] == w[1..] + [c] + rest;
      WordStopsAt(w[1..], c, rest);
    }
  }

  lemma {:induction false} NoBlankBefore(s: string, rest: string)
    requires ' ' !in s
    ensures AfterBlank(s + rest) == AfterBlank(rest)
  {
    if s == "" {
      assert s + rest == rest;
    } else {
      assert (s + rest)[0] == s[0] && (s + rest)[1..] == s[1..] + rest;
      NoBlankBefore(s[1..], rest);
    }
  }

  /**
   Any white space ends a word, but only a blank leads to the next one: from a tab or a line break
   up to the following blank the text is lost.
   */
  lemma {:induction false} OnlyBlankAdvances(w: string, c: char, lost: string, rest: string)
    requires IsWord(w) && White(c) && c != ' ' && ' ' !in lost
    ensures MakeTokens(w + [c] + lost) == Made([w], None)
    ensures MakeTokens(w + [c] + (lost + " " + rest)) == MakeTokens(w + " " + rest)
  {
    assert ' ' !in w + [c] + lost;
    WordStopsAt(w, c, lost);
    WordStopsAt(w, c, lost + " " + rest);
    assert (w + [c] + lost)[0] == w[0] && (w + [c] + (lost + " " + rest))[0] == w[0];
    assert w + [c] + (lost + " " + rest) == (w + [c] + lost) + (" " + rest);
    NoBlankBefore(w + [c] + lost, " " + rest);
    assert (" " + rest)[1..] == rest;
    FirstWord(w, rest);
  }

  // -------- Trees --------

  datatype Mode = UpperUnder | Upper | Under

  function ModeChar(m: Mode): char {
    match m
    case UpperUnder => '*'
    case Upper => '+'
    case Under => '-'
  }

  /** A layer, with or without a bracket group of layers linked to it. */
  datatype Tree = Tree(name: string, group: Group)
  datatype Group = Bare | Bracket(items: Forest)
  datatype Forest = Nil | Item(mode: Mode, tree: Tree, rest: Forest)

  /** The notation of a tree: its name, then its bracket group. */
  function TreeTokens(t: Tree): seq<string> {
    [t.name] + GroupTokens(t.group)
  }

  function GroupTokens(g: Group): seq<string>
    decreases g
  {
    match g
    case Bare => []
    case Bracket(items) => ["("] + ForestTokens(items) + [")"]
  }

  function ForestTokens(f: Forest): seq<string>
    decreases f
  {
    match f
    case Nil => []
    case Item(m, t, rest) => [[ModeChar(m)] + t.name] + GroupTokens(t.group) + ForestTokens(rest)
  }

  datatype NamedLink = NamedLink(mode: Mode, parent: string, child: string)

  /** The parent-child links the tree stands for, in pre-order. */
  function TreeLinks(t: Tree): seq<NamedLink> {
    GroupLinks(t.name, t.group)
  }

  function GroupLinks(parent: string, g: Group): seq<NamedLink>
    decreases g
  {
    match g
    case Bare => []
    case Bracket(items) => ForestLinks(parent, items)
  }

  function ForestLinks(parent: string, f: Forest): seq<NamedLink>
    decreases f
  {
    match f
    case Nil => []
    case Item(m, t, rest) => [NamedLink(m, parent, t.name)] + GroupLinks(t.name, t.group) + ForestLinks(parent, rest)
  }

  /** How many brackets are open at the deepest point. */
  function GroupDepth(g: Group): nat {
    match g
    case Bare => 0
    case Bracket(items) => 1 + ForestDepth(items)
  }

  function ForestDepth(f: Forest): nat {
    match f
    case Nil => 0
    case Item(_, t, rest) =>
      var here, there := GroupDepth(t.group), ForestDepth(rest);
      if here > there then here else there
  }

  /** Every token of the tree is a word. */
  predicate Writable(t: Tree) {
    AllWords(TreeTokens(t))
  }

  // -------- The notation is unambiguous --------

  /** What may follow a group: nothing, a closing bracket, or a linked layer. */
  predicate Follows(x: seq<string>) {
    x != [] ==> x[0] != "("
  }

  /** The first token after an opening bracket tells whether the forest is empty. */
  lemma ForestHead(f: Forest, x: seq<string>)
    ensures var toks := ForestTokens(f) + ([")"] + x);
      toks[0] != "" && toks[0][0] == (if f.Nil? then ')' else ModeChar(f.mode)) && Follows(toks)
  {
    if f.Item? {
      assert ForestTokens(f)[0] == [ModeChar(f.mode)] + f.tree.name;
    }
  }

  lemma {:induction false} GroupUnambiguous(g: Group, x: seq<string>, h: Group, y: seq<string>)
    requires Follows(x) && Follows(y)
    requires GroupTokens(g) + x == GroupTokens(h) + y
    ensures g == h && x == y
    decreases g
  {
    var a, b := GroupTokens(g) + x, GroupTokens(h) + y;
    assert g.Bracket? ==> a[0] == "(";
    assert h.Bracket? ==> b[0] == "(";
    assert g.Bare? ==> a == x;
    assert h.Bare? ==> b == y;
    if g.Bracket? && h.Bracket? {
      assert ForestTokens(g.items) + ([")"] + x) == a[1..] == b[1..] == ForestTokens(h.items) + ([")"] + y);
      ForestUnambiguous(g.items, x, h.items, y);
    }
  }

  lemma {:induction false} ForestUnambiguous(f: Forest, x: seq<string>, g: Forest, y: seq<string>)
    requires ForestTokens(f) + ([")"] + x) == ForestTokens(g) + ([")"] + y)
    ensures f == g && x == y
    decreases f
  {
    var a, b := ForestTokens(f) + ([")"] + x), ForestTokens(g) + ([")"] + y);
    ForestHead(f, x);
    ForestHead(g, y);
    match (f, g)
    case (Nil, Nil) =>
      assert x == a[1..] == b[1..] == y;
    case (Nil, Item(m, u, us)) =>
    case (Item(m, t, ts), Nil) =>
    case (Item(m, t, ts), Item(n, u, us)) =>
      var x', y' := ForestTokens(ts) + ([")"] + x), ForestTokens(us) + ([")"] + y);
      assert a == [[ModeChar(m)] + t.name] + (GroupTokens(t.group) + x');
      assert b == [[ModeChar(n)] + u.name] + (GroupTokens(u.group) + y');
      assert t.name == a[0][1..] == b[0][1..] == u.name;
      assert GroupTokens(t.group) + x' == a[1..] == b[1..] == GroupTokens(u.group) + y';
      ForestHead(ts, x);
      ForestHead(us, y);
      GroupUnambiguous(t.group, x', u.group, y');
      ForestUnambiguous(ts, x, us, y);
  }

  /** A text is the notation of at most one tree. */
  lemma TextDeterminesTree(t: Tree, u: Tree)
    requires Writable(t) && Writable(u)
    requires Join(TreeTokens(t)) == Join(TreeTokens(u))
    ensures t == u
  {
    JoinedWords(TreeTokens(t));
    JoinedWords(TreeTokens(u));
    var a, b := TreeTokens(t), TreeTokens(u);
    assert a[0] == b[0];
    assert GroupTokens(t.group) + [] == a[1..] == b[1..] == GroupTokens(u.group) + [];
    GroupUnambiguous(t.group, [], u.group, []);
  }
}
