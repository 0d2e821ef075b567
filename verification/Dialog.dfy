/** The layer stack the dialog sets up: its text, its tree and what connecting it does. */
module Dialog {
  import opened Common
  import opened LayerNotation
  import opened LayerManager
  import opened LayerProofs

  /** A layer linked both ways, with the layers in its bracket group. */
  function Both(name: string, g: Group, rest: Forest): Forest {
    Item(UpperUnder, Tree(name, g), rest)
  }

  const CHAT_DLG := Bracket(Both("ChatDlg", Bare, Nil))
  const DIALOG_STACK :=
    Tree("Network", Bracket(Both("Ethernet", Bracket(Both("ChatApp", CHAT_DLG, Both("FileTrans", CHAT_DLG, Nil))), Nil)))

  lemma {:induction false} BothTokens(parent: string, name: string, g: Group, rest: Forest)
    ensures ForestTokens(Both(name, g, rest)) == ["*" + name] + GroupTokens(g) + ForestTokens(rest)
    ensures ForestLinks(parent, Both(name, g, rest)) ==
            [NamedLink(UpperUnder, parent, name)] + GroupLinks(name, g) + ForestLinks(parent, rest)
  {
  }

  /** The tokens of the dialog's own stack text. */
  lemma {:induction false} DialogTokens()
    ensures TreeTokens(DIALOG_STACK) == ["Network", "(", "*Ethernet", "(", "*ChatApp", "(", "*ChatDlg", ")",
                                         "*FileTrans", "(", "*ChatDlg", ")", ")", ")"]
  {
    var file := Both("FileTrans", CHAT_DLG, Nil);
    var chat := Both("ChatApp", CHAT_DLG, file);
    BothTokens("", "ChatDlg", Bare, Nil);
    BothTokens("", "FileTrans", CHAT_DLG, Nil);
    BothTokens("", "ChatApp", CHAT_DLG, file);
    BothTokens("", "Ethernet", Bracket(chat), Nil);
    assert "*" + "ChatDlg" == "*ChatDlg" && "*" + "FileTrans" == "*FileTrans";
    assert "*" + "ChatApp" == "*ChatApp" && "*" + "Ethernet" == "*Ethernet";
    assert GroupTokens(CHAT_DLG) == ["(", "*ChatDlg", ")"];
    assert ForestTokens(file) == ["*FileTrans", "(", "*ChatDlg", ")"];
    assert ForestTokens(chat) == ["*ChatApp", "(", "*ChatDlg", ")"] + ForestTokens(file);
  }

  /** The links the dialog's stack asks for: both ways, the dialog above both applications. */
  const DIALOG_LINKS := [
    NamedLink(UpperUnder, "Network", "Ethernet"),
    NamedLink(UpperUnder, "Ethernet", "ChatApp"), NamedLink(UpperUnder, "ChatApp", "ChatDlg"),
    NamedLink(UpperUnder, "Ethernet", "FileTrans"), NamedLink(UpperUnder, "FileTrans", "ChatDlg")]

  lemma {:induction false} DialogLinks()
    ensures TreeLinks(DIALOG_STACK) == DIALOG_LINKS
  {
    var file := Both("FileTrans", CHAT_DLG, Nil);
    var chat := Both("ChatApp", CHAT_DLG, file);
    BothTokens("ChatApp", "ChatDlg", Bare, Nil);
    BothTokens("FileTrans", "ChatDlg", Bare, Nil);
    BothTokens("Ethernet", "FileTrans", CHAT_DLG, Nil);
    BothTokens("Ethernet", "ChatApp", CHAT_DLG, file);
    BothTokens("Network", "Ethernet", Bracket(chat), Nil);
  }

  /** The text the dialog passes to `ConnectLayers`. */
  const DIALOG_TEXT := "Network ( *Ethernet (" + " " + "*ChatApp ( *ChatDlg ) *FileTrans ( *ChatDlg ) ) )"

  lemma {:induction false} JoinConcat(a: seq<string>, b: seq<string>)
    requires a != [] && b != []
    ensures Join(a + b) == Join(a) + (" " + Join(b))
  {
    if |a| == 1 {
      assert (a + b)[1..] == b;
    } else {
      assert (a + b)[1..] == a[1..] + b;
      JoinConcat(a[1..], b);
      JoinHead(a);
      JoinHead(a + b);
      Regroup(a[0], Join(a[1..]), Join(b));
    }
  }

  lemma {:induction false} JoinHead(words: seq<string>)
    requires |words| > 1
    ensures Join(words) == words[0] + (" " + Join(words[1..]))
  {
    assert words[0] + " " + Join(words[1..]) == words[0] + (" " + Join(words[1..]));
  }

  lemma {:induction false} Regroup(x: string, y: string, z: string)
    ensures x + (" " + (y + (" " + z))) == (x + (" " + y)) + (" " + z)
  {
  }

  lemma {:induction false} JoinPair(x: string, y: string)
    ensures Join([x, y]) == x + (" " + y)
  {
    assert [x, y][1..] == [y];
    JoinHead([x, y]);
  }

  /** A name followed by the one layer in its brackets. */
  lemma {:induction false} JoinFour(x: string, y: string)
    ensures Join([x, "(", y, ")"]) == x + (" " + ("(" + (" " + (y + (" " + ")")))))
  {
    assert [x, "(", y, ")"] == [x, "("] + [y, ")"];
    JoinConcat([x, "("], [y, ")"]);
    JoinPair(x, "(");
    JoinPair(y, ")");
    Regroup(x, "(", y + (" " + ")"));
  }

  lemma {:induction false} Literals(app: string, file: string, close: string, open: string)
    requires open == "Network" + (" " + "(") + (" " + ("*Ethernet" + (" " + "(")))
    requires app == "*ChatApp" + (" " + ("(" + (" " + ("*ChatDlg" + (" " + ")")))))
    requires file == "*FileTrans" + (" " + ("(" + (" " + ("*ChatDlg" + (" " + ")")))))
    requires close == ")" + (" " + ")")
    ensures open + (" " + (app + (" " + (file + (" " + close))))) == DIALOG_TEXT
  {
    assert open == "Network ( *Ethernet (";
    assert app == "*ChatApp ( *ChatDlg )";
    assert file == "*FileTrans ( *ChatDlg )";
    assert close == ") )";
    assert file + (" " + close) == "*FileTrans ( *ChatDlg ) ) )";
    var tail := app + (" " + (file + (" " + close)));
    assert tail == "*ChatApp ( *ChatDlg ) *FileTrans ( *ChatDlg ) ) )";
  }

  /** The dialog's text is the notation of its stack. */
  lemma {:induction false} DialogText()
    ensures Join(TreeTokens(DIALOG_STACK)) == DIALOG_TEXT
  {
    DialogTokens();
    var app, file := ["*ChatApp", "(", "*ChatDlg", ")"], ["*FileTrans", "(", "*ChatDlg", ")"];
    var open, close := ["Network", "("] + ["*Ethernet", "("], [")", ")"];
    assert TreeTokens(DIALOG_STACK) == open + (app + (file + close));
    JoinConcat(file, close);
    JoinConcat(app, file + close);
    JoinConcat(open, app + (file + close));
    JoinConcat(["Network", "("], ["*Ethernet", "("]);
    JoinPair("Network", "(");
    JoinPair("*Ethernet", "(");
    JoinPair(")", ")");
    JoinFour("*ChatApp", "*ChatDlg");
    JoinFour("*FileTrans", "*ChatDlg");
    Literals(Join(app), Join(file), Join(close), Join(open));
  }

  lemma {:induction false} DialogWritable()
    ensures Writable(DIALOG_STACK)
  {
    DialogTokens();
    assert IsWord("Network") && IsWord("*Ethernet") && IsWord("*ChatApp") && IsWord("*ChatDlg") && IsWord("*FileTrans");
    assert IsWord("(") && IsWord(")");
  }

  /**
   Connecting the dialog's text with its five layers in the table, in any order, issues exactly
   those links and empties the stack.
   */
  lemma {:induction false} DialogConnects(table: seq<Layer>)
    requires Find(table, "Network") != null && Find(table, "Ethernet") != null && Find(table, "ChatApp") != null
    requires Find(table, "FileTrans") != null && Find(table, "ChatDlg") != null
    ensures var end := Connect(table, DIALOG_TEXT);
      && end.fault == None && end.stack == []
      && end.links == Resolve(table, DIALOG_LINKS)
  {
    DialogText();
    DialogWritable();
    DialogDepth();
    DialogRegistered(table);
    ConnectIssuesTreeLinks(table, DIALOG_STACK);
    DialogLinks();
  }

  lemma {:induction false} FindsOnly(table: seq<Layer>, i: nat)
    requires i < |table| && forall j | 0 <= j < i :: table[j].name != table[i].name
    ensures Find(table, table[i].name) == table[i]
  {
    if i > 0 {
      assert table[1..][i - 1] == table[i];
      assert forall j | 0 <= j < i - 1 :: table[1..][j] == table[j + 1];
      FindsOnly(table[1..], i - 1);
    }
  }

  /** The dialog's five layers, in the order it adds them. */
  datatype Five = Five(chat: Layer, ethernet: Layer, file: Layer, network: Layer, dialog: Layer) {
    predicate Named() {
      && chat.name == "ChatApp" && ethernet.name == "Ethernet" && file.name == "FileTrans"
      && network.name == "Network" && dialog.name == "ChatDlg"
    }
    function Table(): seq<Layer> { [chat, ethernet, file, network, dialog] }
    predicate Found() {
      && Find(Table(), "ChatApp") == chat && Find(Table(), "Ethernet") == ethernet && Find(Table(), "FileTrans") == file
      && Find(Table(), "Network") == network && Find(Table(), "ChatDlg") == dialog
    }
    /** The link calls between the layers themselves. */
    function Calls(): seq<Link> {
      [Link(UpperUnder, network, ethernet), Link(UpperUnder, ethernet, chat), Link(UpperUnder, chat, dialog),
       Link(UpperUnder, ethernet, file), Link(UpperUnder, file, dialog)]
    }
  }

  /** Each of them is found under its name. */
  lemma {:induction false} FiveFound(five: Five)
    requires five.Named()
    ensures five.Found()
  {
    assert "ChatApp"[0] == 'C' && "Ethernet"[0] == 'E' && "FileTrans"[0] == 'F' && "Network"[0] == 'N';
    assert "ChatApp"[4] == 'A' && "ChatDlg"[0] == 'C' && "ChatDlg"[4] == 'D';
    FindsOnly(five.Table(), 0);
    FindsOnly(five.Table(), 1);
    FindsOnly(five.Table(), 2);
    FindsOnly(five.Table(), 3);
    FindsOnly(five.Table(), 4);
  }

  lemma {:induction false} FiveCalls(five: Five)
    requires five.Found()
    ensures Resolve(five.Table(), DIALOG_LINKS) == five.Calls()
  {
  }

  lemma {:induction false} FiveConnected(five: Five)
    requires five.Named()
    ensures var end := Connect(five.Table(), DIALOG_TEXT);
      end.fault == None && end.stack == [] && end.links == five.Calls()
  {
    FiveFound(five);
    DialogConnects(five.Table());
    FiveCalls(five);
  }

  /** Five layers are added to a new manager. */
  method AddFive(five: Five) returns (m: Manager, faults: seq<Option<Fault>>)
    ensures fresh(m) && fresh(m.mp_Stack) && m.Valid() && m.nodes == [] && m.links == [] && m.Stack() == []
    ensures m.Table() == five.Table() && faults == [None, None, None, None, None]
  {
    m := new Manager();
    var f1 := m.AddLayer(five.chat);
    var f2 := m.AddLayer(five.ethernet);
    var f3 := m.AddLayer(five.file);
    var f4 := m.AddLayer(five.network);
    var f5 := m.AddLayer(five.dialog);
    faults := [f1, f2, f3, f4, f5];
  }

  /**
   The set-up of the dialog: the five layers are added to a new manager and the text is connected.
   No call faults, the stack is left empty, and the five links join those five layers.
   */
  method ConnectDialog(five: Five) returns (m: Manager, faults: seq<Option<Fault>>)
    requires five.Named()
    ensures fresh(m) && m.Valid() && m.Table() == five.Table() && m.Stack() == []
    ensures faults == [None, None, None, None, None, None]
    ensures m.links == [
      Link(UpperUnder, five.network, five.ethernet),
      Link(UpperUnder, five.ethernet, five.chat), Link(UpperUnder, five.chat, five.dialog),
      Link(UpperUnder, five.ethernet, five.file), Link(UpperUnder, five.file, five.dialog)]
  {
    FiveConnected(five);
    m, faults := AddFive(five);
    var f := m.ConnectLayers(DIALOG_TEXT);
    faults := faults + [f];
  }

  lemma {:induction false} DialogRegistered(table: seq<Layer>)
    requires Find(table, "Network") != null && Find(table, "Ethernet") != null && Find(table, "ChatApp") != null
    requires Find(table, "FileTrans") != null && Find(table, "ChatDlg") != null
    ensures Find(table, DIALOG_STACK.name) != null && Registered(table, TreeLinks(DIALOG_STACK))
  {
    DialogLinks();
  }

  lemma {:induction false} DialogDepth()
    ensures GroupDepth(DIALOG_STACK.group) <= 3
  {
    var file := Both("FileTrans", CHAT_DLG, Nil);
    assert GroupDepth(CHAT_DLG) == 1;
    assert ForestDepth(file) == 1 && ForestDepth(Both("ChatApp", CHAT_DLG, file)) == 1;
  }
}
