/**
 * A Newick writer as the reference partner of the parser: for every tree
 * whose names avoid the structural characters and whose branch lengths the
 * number conversion reads back, parsing the written text gives the tree back.
 */
module NewickRoundTrip {
  import opened Wrappers
  import opened JsText
  import opened Newick

  /** `w` occurs in `s` at position `p`. */
  predicate At(s: string, p: nat, w: string)
    decreases |w|
  {
    if w == [] then p <= |s| else p < |s| && s[p] == w[0] && At(s, p + 1, w[1..])
  }

  /** An occurrence is a slice of `s`. */
  lemma {:induction false} AtSlice(s: string, p: nat, w: string)
    requires At(s, p, w)
    ensures p + |w| <= |s| && s[p..p + |w|] == w
    decreases |w|
  {
    if w != [] {
      AtSlice(s, p + 1, w[1..]);
      assert s[p..p + |w|] == [s[p]] + s[p + 1..p + |w|];
    }
  }

  /** A name the parser reads back unchanged: no structural character, nothing to trim. */
  predicate NameOk(name: string) {
    && (forall i | 0 <= i < |name| :: !IsNameStop(name[i]) && name[i] != '(')
    && (name != [] ==> !IsJsWhitespace(name[0]) && !IsJsWhitespace(name[|name| - 1]))
  }

  /**
   * The tree can be written with `show` and read back: names are fine,
   * every written length consists of number characters and converts back.
   */
  predicate WellFormed(t: Node, show: real -> string, read: NumberReader) {
    && NameOk(t.name)
    && (forall i | 0 <= i < |show(t.length)| :: IsNumberChar(show(t.length)[i]))
    && BranchLength(read, show(t.length)) == t.length
    && (forall i | 0 <= i < |t.children| :: WellFormed(t.children[i], show, read))
  }

  /** The Newick text of a tree: `(child,child,...)name:length`. */
  function Serialize(t: Node, show: real -> string): string
    decreases t, 1
  {
    ChildList(t, show) + Tail(t.name, show(t.length))
  }

  /** The text `name:length` of a node without its child list. */
  function Tail(name: string, text: string): (r: string)
    ensures |r| == |name| + 1 + |text|
  {
    name + ":" + text
  }

  /** The child list `(child,child,...)` of an inner node; nothing for a leaf. */
  function ChildList(t: Node, show: real -> string): string
    decreases t, 0
  {
    if t.children == [] then "" else "(" + Serialize(t.children[0], show) + CommaList(t.children, 1, show) + ")"
  }

  /** `,child` for every child from index `i` on. */
  function CommaList(kids: seq<Node>, i: nat, show: real -> string): string
    requires i <= |kids|
    decreases kids, |kids| - i
  {
    if i == |kids| then "" else "," + Serialize(kids[i], show) + CommaList(kids, i + 1, show)
  }

  /** A word at `p` splits into its two parts. */
  lemma {:induction false} AtConcat(s: string, p: nat, u: string, v: string)
    ensures At(s, p, u + v) <==> At(s, p, u) && At(s, p + |u|, v)
    decreases |u|
  {
    if u == [] {
      assert u + v == v;
      if At(s, p, v) { AtSlice(s, p, v); }
    } else {
      assert (u + v)[0] == u[0];
      assert (u + v)[1..] == u[1..] + v;
      AtConcat(s, p + 1, u[1..], v);
    }
  }

  /** The name scan collects exactly a name without stop characters that is followed by a stop. */
  lemma {:induction false} NameTextAt(s: string, p: nat, name: string)
    requires At(s, p, name)
    requires forall i | 0 <= i < |name| :: !IsNameStop(name[i])
    requires p + |name| < |s| && IsNameStop(s[p + |name|])
    ensures NameText(s, p) == name
    decreases |name|
  {
    if name != [] {
      NameTextAt(s, p + 1, name[1..]);
      assert name == [name[0]] + name[1..];
    }
  }

  /** The number scan collects exactly a run of number characters that is not followed by one. */
  lemma {:induction false} NumberTextAt(s: string, p: nat, num: string)
    requires At(s, p, num)
    requires forall i | 0 <= i < |num| :: IsNumberChar(num[i])
    requires p + |num| < |s| ==> !IsNumberChar(s[p + |num|])
    ensures NumberText(s, p) == num
    decreases |num|
  {
    if num != [] {
      NumberTextAt(s, p + 1, num[1..]);
      assert num == [num[0]] + num[1..];
    }
  }

  /** A character after which a subtree's text may end. */
  predicate ClosesSubtree(s: string, e: nat) {
    e == |s| || (e < |s| && (s[e] == ',' || s[e] == ')'))
  }

  /** A name without structural characters or surrounding white space is read back at `q`. */
  lemma NameReadBack(s: string, q: nat, name: string)
    requires NameOk(name)
    requires At(s, q, name)
    requires q + |name| < |s| && s[q + |name|] == ':'
    ensures ReadName(s, q) == Read(name, q + |name|)
  {
    NameTextAt(s, q, name);
    TrimUnchanged(name);
  }

  /** A written length of number characters after `:` at `e` is read back. */
  lemma LengthReadBack(s: string, e: nat, len: real, text: string, read: NumberReader)
    requires forall i | 0 <= i < |text| :: IsNumberChar(text[i])
    requires BranchLength(read, text) == len
    requires e < |s| && s[e] == ':'
    requires At(s, e + 1, text)
    requires ClosesSubtree(s, e + 1 + |text|)
    ensures ReadLength(s, e, read) == Read(len, e + 1 + |text|)
  {
    NumberTextAt(s, e + 1, text);
  }

  /** The name and the length part `name:length` at `q` read back. */
  lemma TailReadBack(s: string, q: nat, name: string, len: real, text: string, read: NumberReader)
    requires NameOk(name)
    requires forall i | 0 <= i < |text| :: IsNumberChar(text[i])
    requires BranchLength(read, text) == len
    requires At(s, q, Tail(name, text))
    requires ClosesSubtree(s, q + |Tail(name, text)|)
    ensures ReadName(s, q) == Read(name, q + |name|)
    ensures ReadLength(s, q + |name|, read) == Read(len, q + |Tail(name, text)|)
  {
    var e := q + |name|;
    assert Tail(name, text) == (name + ":") + text;
    AtConcat(s, q, name + ":", text);
    assert |name + ":"| == |name| + 1;
    assert At(s, e + 1, text);
    AtConcat(s, q, name, ":");
    assert At(s, e, ":");
    assert e < |s| && s[e] == ':';
    assert ClosesSubtree(s, e + 1 + |text|);
    NameReadBack(s, q, name);
    LengthReadBack(s, e, len, text, read);
  }

  /** A tail `name:length` whose name avoids `(` does not start with `(`. */
  lemma TailStart(s: string, p: nat, name: string, text: string)
    requires NameOk(name)
    requires At(s, p, Tail(name, text))
    ensures !(p < |s| && s[p] == '(')
  {
    assert Tail(name, text) == name + (":" + text);
    AtConcat(s, p, name, ":" + text);
    if name != [] {
      assert s[p] == name[0];
    }
  }

  /** A node's text is its child list followed by its tail. */
  lemma SerializeText(t: Node, show: real -> string, s: string, p: nat)
    requires At(s, p, Serialize(t, show))
    ensures At(s, p, ChildList(t, show))
    ensures At(s, p + |ChildList(t, show)|, Tail(t.name, show(t.length)))
    ensures |Serialize(t, show)| == |ChildList(t, show)| + |Tail(t.name, show(t.length))|
  {
    AtConcat(s, p, ChildList(t, show), Tail(t.name, show(t.length)));
  }

  /** The parts of a word `(a b)` at `p` and where each sits. */
  lemma BracketAt(s: string, p: nat, u: string, v: string)
    requires At(s, p, "(" + u + v + ")")
    ensures p < |s| && s[p] == '('
    ensures At(s, p + 1, u)
    ensures At(s, p + 1 + |u|, v)
    ensures p + 1 + |u| + |v| < |s| && s[p + 1 + |u| + |v|] == ')'
  {
    AtConcat(s, p, "(" + u + v, ")");
    AtConcat(s, p, "(" + u, v);
    AtConcat(s, p, "(", u);
  }

  /** The parts of a word `,a b` at `q` and where each sits. */
  lemma CommaAt(s: string, q: nat, u: string, v: string)
    requires At(s, q, "," + u + v)
    ensures q < |s| && s[q] == ','
    ensures At(s, q + 1, u)
    ensures At(s, q + 1 + |u|, v)
  {
    AtConcat(s, q, "," + u, v);
    AtConcat(s, q, ",", u);
  }

  /** A list of further children starts with a comma. */
  lemma CommaListStart(kids: seq<Node>, i: nat, show: real -> string, s: string, q: nat)
    requires i < |kids|
    requires At(s, q, CommaList(kids, i, show))
    ensures q < |s| && s[q] == ','
  {
    CommaAt(s, q, Serialize(kids[i], show), CommaList(kids, i + 1, show));
  }

  /** The parts of an inner node's child list `(first rest)` and where each sits. */
  lemma ChildListText(t: Node, show: real -> string, s: string, p: nat)
    requires t.children != []
    requires At(s, p, ChildList(t, show))
    ensures p < |s| && s[p] == '('
    ensures At(s, p + 1, Serialize(t.children[0], show))
    ensures ClosesSubtree(s, p + 1 + |Serialize(t.children[0], show)|)
    ensures At(s, p + 1 + |Serialize(t.children[0], show)|, CommaList(t.children, 1, show))
    ensures p + 1 + |Serialize(t.children[0], show)| + |CommaList(t.children, 1, show)| < |s|
    ensures s[p + 1 + |Serialize(t.children[0], show)| + |CommaList(t.children, 1, show)|] == ')'
    ensures p + 1 + |Serialize(t.children[0], show)| + |CommaList(t.children, 1, show)| + 1 == p + |ChildList(t, show)|
  {
    var first := Serialize(t.children[0], show);
    var rest := CommaList(t.children, 1, show);
    BracketAt(s, p, first, rest);
    if |t.children| > 1 {
      CommaListStart(t.children, 1, show, s, p + 1 + |first|);
    } else {
      assert rest == "";
    }
  }

  /** The parts of `,item rest` followed by `)` and where each sits. */
  lemma CommaText(kids: seq<Node>, i: nat, show: real -> string, s: string, q: nat)
    requires i < |kids|
    requires At(s, q, CommaList(kids, i, show))
    requires q + |CommaList(kids, i, show)| < |s| && s[q + |CommaList(kids, i, show)|] == ')'
    ensures q < |s| && s[q] == ','
    ensures At(s, q + 1, Serialize(kids[i], show))
    ensures ClosesSubtree(s, q + 1 + |Serialize(kids[i], show)|)
    ensures At(s, q + 1 + |Serialize(kids[i], show)|, CommaList(kids, i + 1, show))
    ensures q + 1 + |Serialize(kids[i], show)| + |CommaList(kids, i + 1, show)| == q + |CommaList(kids, i, show)|
  {
    var item := Serialize(kids[i], show);
    var rest := CommaList(kids, i + 1, show);
    CommaAt(s, q, item, rest);
    if i + 1 < |kids| {
      CommaListStart(kids, i + 1, show, s, q + 1 + |item|);
    } else {
      assert rest == "";
    }
  }

  /** The names and written length of a node's own tail are fine. */
  predicate TailOk(t: Node, show: real -> string, read: NumberReader) {
    && NameOk(t.name)
    && (forall i | 0 <= i < |show(t.length)| :: IsNumberChar(show(t.length)[i]))
    && BranchLength(read, show(t.length)) == t.length
  }

  /** A leaf's text `name:length` at `p` parses back to the leaf. */
  lemma LeafSerialized(t: Node, show: real -> string, read: NumberReader, s: string, p: nat)
    requires t.children == []
    requires TailOk(t, show, read)
    requires At(s, p, Tail(t.name, show(t.length)))
    requires ClosesSubtree(s, p + |Tail(t.name, show(t.length))|)
    ensures ParseAt(s, p, read) == Read(t, p + |Tail(t.name, show(t.length))|)
  {
    var text := show(t.length);
    TailStart(s, p, t.name, text);
    TailReadBack(s, p, t.name, t.length, text, read);
    ParseLeaf(s, p, read, t.name, p + |t.name|, t.length, p + |Tail(t.name, text)|);
  }

  /** An inner node whose child list at `p` reads back up to `g` and whose tail follows at `g` parses back. */
  lemma InnerSerialized(t: Node, show: real -> string, read: NumberReader, s: string, p: nat, g: nat)
    requires TailOk(t, show, read)
    requires p < |s| && s[p] == '('
    requires GroupAt(s, p, read) == Read(t.children, g)
    requires At(s, g, Tail(t.name, show(t.length)))
    requires ClosesSubtree(s, g + |Tail(t.name, show(t.length))|)
    ensures ParseAt(s, p, read) == Read(t, g + |Tail(t.name, show(t.length))|)
  {
    var text := show(t.length);
    TailReadBack(s, g, t.name, t.length, text, read);
    ParseInner(s, p, read, t.children, g, t.name, g + |t.name|, t.length, g + |Tail(t.name, text)|);
  }

  /** Reading a well-formed subtree's text at `p` gives the subtree and moves past its text. */
  lemma {:induction false} ParseSerialized(t: Node, show: real -> string, read: NumberReader, s: string, p: nat)
    requires WellFormed(t, show, read)
    requires At(s, p, Serialize(t, show))
    requires ClosesSubtree(s, p + |Serialize(t, show)|)
    ensures ParseAt(s, p, read) == Read(t, p + |Serialize(t, show)|)
    decreases t, 2
  {
    assert TailOk(t, show, read);
    SerializeText(t, show, s, p);
    if t.children == [] {
      assert ChildList(t, show) == "";
      LeafSerialized(t, show, read, s, p);
    } else {
      ChildListRead(t, show, read, s, p);
      InnerSerialized(t, show, read, s, p, p + |ChildList(t, show)|);
    }
  }

  /** Reading the child list of a well-formed inner node gives its children. */
  lemma {:induction false} ChildListRead(t: Node, show: real -> string, read: NumberReader, s: string, p: nat)
    requires t.children != []
    requires forall i | 0 <= i < |t.children| :: WellFormed(t.children[i], show, read)
    requires At(s, p, ChildList(t, show))
    ensures p < |s| && s[p] == '('
    ensures GroupAt(s, p, read) == Read(t.children, p + |ChildList(t, show)|)
    decreases t, 1
  {
    ChildListText(t, show, s, p);
    var q1 := p + 1 + |Serialize(t.children[0], show)|;
    var q2 := q1 + |CommaList(t.children, 1, show)|;
    ChildrenSerialized(t.children, 1, show, read, s, q1);
    ParseSerialized(t.children[0], show, read, s, p + 1);
    GroupFromParts(s, p, read, t.children, q1, q2);
  }

  /** A child list whose first subtree and remaining siblings read back gives all the children. */
  lemma GroupFromParts(s: string, p: nat, read: NumberReader, kids: seq<Node>, q1: nat, q2: nat)
    requires kids != []
    requires p < |s| && s[p] == '('
    requires ParseAt(s, p + 1, read) == Read(kids[0], q1)
    requires ChildrenAt(s, q1, kids[..1], read) == Read(kids, q2)
    ensures GroupAt(s, p, read) == Read(kids, q2 + 1)
  {
    assert kids[..1] == [kids[0]];
    GroupValue(s, p, read, kids[0], q1, kids, q2);
  }

  /**
   * Reading `,child` for children `i..` at `q`, followed by `)`, after the
   * children before `i` gives all the children.
   */
  lemma {:induction false} ChildrenSerialized(kids: seq<Node>, i: nat, show: real -> string, read: NumberReader,
                                               s: string, q: nat)
    requires i <= |kids|
    requires forall j | i <= j < |kids| :: WellFormed(kids[j], show, read)
    requires At(s, q, CommaList(kids, i, show))
    requires q + |CommaList(kids, i, show)| < |s| && s[q + |CommaList(kids, i, show)|] == ')'
    ensures ChildrenAt(s, q, kids[..i], read) == Read(kids, q + |CommaList(kids, i, show)|)
    decreases kids, |kids| - i + 1
  {
    if i == |kids| {
      assert kids[..i] == kids;
    } else {
      CommaText(kids, i, show, s, q);
      ChildrenSerialized(kids, i + 1, show, read, s, q + 1 + |Serialize(kids[i], show)|);
      SiblingRead(kids, i, show, read, s, q);
    }
  }

  /** One `,child` at `q`: once the siblings after it read back, so do those from it on. */
  lemma {:induction false} SiblingRead(kids: seq<Node>, i: nat, show: real -> string, read: NumberReader, s: string, q: nat)
    requires i < |kids|
    requires WellFormed(kids[i], show, read)
    requires At(s, q, CommaList(kids, i, show))
    requires q + |CommaList(kids, i, show)| < |s| && s[q + |CommaList(kids, i, show)|] == ')'
    requires ChildrenAt(s, q + 1 + |Serialize(kids[i], show)|, kids[..i + 1], read) == Read(kids, q + |CommaList(kids, i, show)|)
    ensures ChildrenAt(s, q, kids[..i], read) == Read(kids, q + |CommaList(kids, i, show)|)
    decreases kids, 0
  {
    CommaText(kids, i, show, s, q);
    SiblingParts(kids[i], show, read, s, q, kids, i, q + |CommaList(kids, i, show)|);
  }

  /** The subtree `t` after the comma at `q` reads back, and so do the siblings from it on. */
  lemma {:induction false} SiblingParts(t: Node, show: real -> string, read: NumberReader, s: string, q: nat, kids: seq<Node>, i: nat, q2: nat)
    requires i < |kids| && kids[i] == t
    requires WellFormed(t, show, read)
    requires q < |s| && s[q] == ','
    requires At(s, q + 1, Serialize(t, show))
    requires ClosesSubtree(s, q + 1 + |Serialize(t, show)|)
    requires ChildrenAt(s, q + 1 + |Serialize(t, show)|, kids[..i + 1], read) == Read(kids, q2)
    ensures ChildrenAt(s, q, kids[..i], read) == Read(kids, q2)
    decreases t, 3
  {
    ParseSerialized(t, show, read, s, q + 1);
    SiblingsFromParts(s, q, read, kids, i, q + 1 + |Serialize(t, show)|, q2);
  }

  /** The siblings after a comma, assembled from the next subtree and the ones after it. */
  lemma SiblingsFromParts(s: string, q: nat, read: NumberReader, kids: seq<Node>, i: nat, q1: nat, q2: nat)
    requires i < |kids|
    requires q < |s| && s[q] == ','
    requires ParseAt(s, q + 1, read) == Read(kids[i], q1)
    requires ChildrenAt(s, q1, kids[..i + 1], read) == Read(kids, q2)
    ensures ChildrenAt(s, q, kids[..i], read) == Read(kids, q2)
  {
    assert kids[..i] + [kids[i]] == kids[..i + 1];
    CommaValue(s, q, read, kids[..i], kids[i], q1, kids, q2);
  }

  /** A string occurs in itself from any position on. */
  lemma {:induction false} AtSuffix(s: string, p: nat)
    requires p <= |s|
    ensures At(s, p, s[p..])
    decreases |s| - p
  {
    if p < |s| {
      assert s[p..][1..] == s[p + 1..];
      AtSuffix(s, p + 1);
    }
  }

  /** A node's text starts with `(`, a name character or `:`, and ends with a number character or `:`. */
  lemma SerializeEnds(t: Node, show: real -> string, read: NumberReader)
    requires TailOk(t, show, read)
    ensures Serialize(t, show) != []
    ensures !IsJsWhitespace(Serialize(t, show)[0])
    ensures !IsJsWhitespace(Serialize(t, show)[|Serialize(t, show)| - 1])
  {
    var list := ChildList(t, show);
    var len := show(t.length);
    var tail := Tail(t.name, len);
    var text := Serialize(t, show);
    assert text == list + tail;
    assert tail == t.name + (":" + len);
    if list != [] {
      assert list == "(" + (Serialize(t.children[0], show) + CommaList(t.children, 1, show) + ")");
      assert text[0] == '(';
    } else if t.name != [] {
      assert text[0] == t.name[0];
    } else {
      assert text[0] == ':';
    }
    if len != [] {
      assert text[|text| - 1] == len[|len| - 1];
      assert IsNumberChar(len[|len| - 1]);
    } else {
      assert text[|text| - 1] == ':';
    }
  }

  /**
   * Round trip: the written text of a well-formed tree, with the trailing
   * `;` the builders emit, parses back to the same tree.
   */
  lemma SerializeThenParse(t: Node, show: real -> string, read: NumberReader)
    requires WellFormed(t, show, read)
    ensures Parsed(Serialize(t, show) + ";", read) == t
  {
    var text := Serialize(t, show);
    assert (text + ";")[..|text + ";"| - 1] == text;
    assert TailOk(t, show, read);
    SerializeEnds(t, show, read);
    TrimUnchanged(text);
    assert Prepare(text + ";") == text;
    AtSuffix(text, 0);
    assert text[0..] == text;
    ParseSerialized(t, show, read, text, 0);
  }
}
