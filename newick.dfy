/**
 * The Newick reader of the phylogenetic tree builder: a recursive-descent
 * parser with one forward-only cursor.  It never rejects input.
 *
 * `ParseAt` and `ChildrenAt` are the parser as functions from a cursor
 * position to a node and the next position; `ParseSubtree` and
 * `ParseNewick` are the source's loops, proved to compute them.
 */
module Newick {
  import opened Wrappers
  import opened JsText

  /** One tree node: `{children, length, name}`. */
  datatype Node = Node(name: string, length: real, children: seq<Node>)

  /** A value read from the text together with the cursor after it. */
  datatype Read<T> = Read(value: T, next: nat)

  /**
   * The conversion of the scanned branch-length text (`parseFloat`), with
   * None standing for NaN.  It is a parameter: only the scan is modelled.
   */
  type NumberReader = string -> Option<real>

  /** `parseFloat(num) || 0`: NaN becomes 0 (and 0 stays 0). */
  function BranchLength(read: NumberReader, text: string): real
  {
    match read(text)
    case None => 0.0
    case Some(v) => v
  }

  /** The characters that end a name. */
  predicate IsNameStop(c: char) {
    c == ':' || c == ',' || c == ')' || c == ';'
  }

  /** The characters a branch length may consist of: `0123456789.eE-+`. */
  predicate IsNumberChar(c: char) {
    ('0' <= c <= '9') || c == '.' || c == 'e' || c == 'E' || c == '-' || c == '+'
  }

  /** `s.replace(/;$/, '').trim()`: one trailing `;` removed, then trimmed. */
  function Prepare(s: string): (r: string)
    ensures |r| <= |s|
  {
    Trim(if s != [] && s[|s| - 1] == ';' then s[..|s| - 1] else s)
  }

  /**
   * Only a `;` that is the very last character is dropped (one before
   * trailing white space stays), and the result has no white space at
   * either end.
   */
  lemma PrepareSpec(s: string)
    ensures Prepare(s + ";") == Trim(s)
    ensures (s == [] || s[|s| - 1] != ';') ==> Prepare(s) == Trim(s)
    ensures Prepare(s) != [] ==> !IsJsWhitespace(Prepare(s)[0]) && !IsJsWhitespace(Prepare(s)[|Prepare(s)| - 1])
  {
    assert (s + ";")[..|s|] == s;
    TrimSpec(if s != [] && s[|s| - 1] == ';' then s[..|s| - 1] else s);
  }

  /** Characters left from cursor `p`; 0 once the cursor is past the end. */
  function Rem(s: string, p: nat): nat {
    if p <= |s| then |s| - p else 0
  }

  /**
   * The characters the name scan collects from `p` on: everything up to
   * the first `:`, `,`, `)` or `;`, or to the end.
   */
  function NameText(s: string, p: nat): (w: string)
    ensures p + |w| <= |s| || w == []
    ensures p + |w| < |s| ==> IsNameStop(s[p + |w|])
    decreases |s| - p
  {
    if p < |s| && !IsNameStop(s[p]) then [s[p]] + NameText(s, p + 1) else []
  }

  /** The characters the branch-length scan collects from `p` on: the longest run of number characters. */
  function NumberText(s: string, p: nat): (w: string)
    ensures p + |w| <= |s| || w == []
    ensures p + |w| < |s| ==> !IsNumberChar(s[p + |w|])
    decreases |s| - p
  {
    if p < |s| && IsNumberChar(s[p]) then [s[p]] + NumberText(s, p + 1) else []
  }

  /**
   * The name read at cursor `q` and the cursor after it: the trimmed run of
   * characters up to the first `:`, `,`, `)` or `;`, or to the end.
   */
  function ReadName(s: string, q: nat): (r: Read<string>)
    ensures q <= r.next
    ensures q <= |s| ==> r.next <= |s|
    ensures r.next < |s| ==> IsNameStop(s[r.next])
  {
    var w := NameText(s, q);
    Read(Trim(w), q + |w|)
  }

  /**
   * The name is the trimmed text between the cursor and the stop the scan
   * ends on, and that text holds no stop character.
   */
  lemma ReadNameSpec(s: string, q: nat)
    ensures var r := ReadName(s, q);
      && (forall k | q <= k < r.next && k < |s| :: !IsNameStop(s[k]))
      && (q <= |s| ==> r.value == Trim(s[q..r.next]))
  {
    var w := NameText(s, q);
    NameTextSpec(s, q);
    if q <= |s| {
      assert s[q..q + |w|] == w;
    }
  }

  /** The name scan collects the characters from `p` on, and no stop character. */
  lemma {:induction false} NameTextSpec(s: string, p: nat)
    ensures var w := NameText(s, p);
      && (w != [] ==> p + |w| <= |s|)
      && (forall k | 0 <= k < |w| :: p + k < |s| && w[k] == s[p + k] && !IsNameStop(w[k]))
    decreases |s| - p
  {
    if p < |s| && !IsNameStop(s[p]) {
      NameTextSpec(s, p + 1);
    }
  }

  /** A run of name characters ended by a stop or the end of the text is what the name scan collects. */
  lemma {:induction false} NameTextUpTo(s: string, p: nat, e: nat)
    requires p <= e <= |s|
    requires forall k | p <= k < e :: !IsNameStop(s[k])
    requires e < |s| ==> IsNameStop(s[e])
    ensures NameText(s, p) == s[p..e]
    decreases e - p
  {
    if p < e {
      NameTextUpTo(s, p + 1, e);
      assert s[p..e] == [s[p]] + s[p + 1..e];
    }
  }

  /** The number scan collects the characters from `p` on, and number characters only. */
  lemma {:induction false} NumberTextSpec(s: string, p: nat)
    ensures var w := NumberText(s, p);
      && (w != [] ==> p + |w| <= |s|)
      && (forall k | 0 <= k < |w| :: p + k < |s| && w[k] == s[p + k] && IsNumberChar(w[k]))
    decreases |s| - p
  {
    if p < |s| && IsNumberChar(s[p]) {
      NumberTextSpec(s, p + 1);
    }
  }

  /** A run of number characters ended by another character or the end of the text is what the number scan collects. */
  lemma {:induction false} NumberTextUpTo(s: string, p: nat, e: nat)
    requires p <= e <= |s|
    requires forall k | p <= k < e :: IsNumberChar(s[k])
    requires e < |s| ==> !IsNumberChar(s[e])
    ensures NumberText(s, p) == s[p..e]
    decreases e - p
  {
    if p < e {
      NumberTextUpTo(s, p + 1, e);
      assert s[p..e] == [s[p]] + s[p + 1..e];
    }
  }

  /**
   * The branch length read at cursor `e` and the cursor after it: 0 and no
   * move unless `s[e]` is `:`; otherwise the `:` and the longest run of
   * number characters after it are consumed and that run is converted.
   */
  function ReadLength(s: string, e: nat, read: NumberReader): (r: Read<real>)
    ensures e <= r.next
    ensures !(e < |s| && s[e] == ':') ==> r == Read(0.0, e)
    ensures e < |s| && s[e] == ':' ==>
      && r.next == e + 1 + |NumberText(s, e + 1)| <= |s|
      && r.value == BranchLength(read, NumberText(s, e + 1))
  {
    if e < |s| && s[e] == ':' then
      var w := NumberText(s, e + 1);
      Read(BranchLength(read, w), e + 1 + |w|)
    else
      Read(0.0, e)
  }

  /**
   * After a `:` the scan consumes exactly the text up to the cursor it
   * returns, that text consists of number characters only, and the length
   * is its conversion.
   */
  lemma ReadLengthSpec(s: string, e: nat, read: NumberReader)
    requires e < |s| && s[e] == ':'
    ensures var r := ReadLength(s, e, read);
      && (forall k | e < k < r.next :: IsNumberChar(s[k]))
      && r.value == BranchLength(read, s[e + 1..r.next])
  {
    var w := NumberText(s, e + 1);
    NumberTextSpec(s, e + 1);
    assert s[e + 1..e + 1 + |w|] == w;
    assert forall k | e < k < e + 1 + |w| :: s[k] == w[k - e - 1];
  }

  /**
   * The node parsed at cursor `p` and the cursor after it (`parse()`).  A
   * `(` opens a child list; then a name and a branch length follow.
   */
  function ParseAt(s: string, p: nat, read: NumberReader): (r: Read<Node>)
    ensures p <= r.next
    ensures p < |s| && s[p] == '(' ==> |r.value.children| >= 1
    ensures !(p < |s| && s[p] == '(') ==> r.value.children == []
    decreases Rem(s, p), 2
  {
    var group := if p < |s| && s[p] == '(' then GroupAt(s, p, read) else Read([], p);
    var name := ReadName(s, group.next);
    var len := ReadLength(s, name.next, read);
    Read(Node(name.value, len.value, group.value), len.next)
  }

  /**
   * The children of a node whose text starts with `(` at `p`: the first
   * subtree after the `(`, then one more per comma; the character that
   * closes the list is skipped whatever it is.
   */
  function GroupAt(s: string, p: nat, read: NumberReader): (r: Read<seq<Node>>)
    requires p < |s| && s[p] == '('
    ensures p + 1 < r.next
    ensures |r.value| >= 1
    decreases Rem(s, p), 1
  {
    var first := ParseAt(s, p + 1, read);
    var kids := ChildrenAt(s, first.next, [first.value], read);
    Read(kids.value, kids.next + 1)
  }

  /**
   * The `while (s[pos] === ',')` loop: while a comma is at the cursor, skip
   * it and append one more subtree to `acc`.
   */
  function ChildrenAt(s: string, q: nat, acc: seq<Node>, read: NumberReader): (r: Read<seq<Node>>)
    ensures q <= r.next
    ensures |acc| <= |r.value|
    ensures !(q < |s| && s[q] == ',') ==> r == Read(acc, q)
    decreases Rem(s, q), 0
  {
    if q < |s| && s[q] == ',' then
      var next := ParseAt(s, q + 1, read);
      ChildrenAt(s, next.next, acc + [next.value], read)
    else
      Read(acc, q)
  }

  /** `parseNewick(s)`: the tree read from the prepared string. */
  function Parsed(s: string, read: NumberReader): Node
  {
    ParseAt(Prepare(s), 0, read).value
  }

  /** A node with a child list, assembled from its parts. */
  lemma ParseInner(s: string, p: nat, read: NumberReader, kids: seq<Node>, q2: nat,
                   name: string, q3: nat, len: real, q4: nat)
    requires p < |s| && s[p] == '('
    requires GroupAt(s, p, read) == Read(kids, q2)
    requires ReadName(s, q2) == Read(name, q3)
    requires ReadLength(s, q3, read) == Read(len, q4)
    ensures ParseAt(s, p, read) == Read(Node(name, len, kids), q4)
  {
  }

  /** A node without a child list, assembled from its parts. */
  lemma ParseLeaf(s: string, p: nat, read: NumberReader, name: string, q3: nat, len: real, q4: nat)
    requires !(p < |s| && s[p] == '(')
    requires ReadName(s, p) == Read(name, q3)
    requires ReadLength(s, q3, read) == Read(len, q4)
    ensures ParseAt(s, p, read) == Read(Node(name, len, []), q4)
  {
  }

  /** One unfolding of `GroupAt`. */
  lemma GroupAtUnfold(s: string, p: nat, read: NumberReader)
    requires p < |s| && s[p] == '('
    ensures GroupAt(s, p, read).value == ChildrenAt(s, ParseAt(s, p + 1, read).next, [ParseAt(s, p + 1, read).value], read).value
    ensures GroupAt(s, p, read).next == ChildrenAt(s, ParseAt(s, p + 1, read).next, [ParseAt(s, p + 1, read).value], read).next + 1
  {
  }

  /** A child list assembled from its first subtree and the rest. */
  lemma GroupValue(s: string, p: nat, read: NumberReader, first: Node, q1: nat, kids: seq<Node>, q2: nat)
    requires p < |s| && s[p] == '('
    requires ParseAt(s, p + 1, read) == Read(first, q1)
    requires ChildrenAt(s, q1, [first], read) == Read(kids, q2)
    ensures GroupAt(s, p, read) == Read(kids, q2 + 1)
  {
    GroupAtUnfold(s, p, read);
  }

  /** One unfolding of `ChildrenAt` at a comma. */
  lemma ChildrenStep(s: string, q: nat, acc: seq<Node>, read: NumberReader)
    requires q < |s| && s[q] == ','
    ensures ChildrenAt(s, q, acc, read) == ChildrenAt(s, ParseAt(s, q + 1, read).next, acc + [ParseAt(s, q + 1, read).value], read)
  {
  }

  /** The children after a comma, assembled from the next subtree and the rest. */
  lemma CommaValue(s: string, q: nat, read: NumberReader, acc: seq<Node>, item: Node, q1: nat, kids: seq<Node>, q2: nat)
    requires q < |s| && s[q] == ','
    requires ParseAt(s, q + 1, read) == Read(item, q1)
    requires ChildrenAt(s, q1, acc + [item], read) == Read(kids, q2)
    ensures ChildrenAt(s, q, acc, read) == Read(kids, q2)
  {
    ChildrenStep(s, q, acc, read);
  }

  /** `parse()` with the closure's cursor passed in and handed back. */
  method ParseSubtree(s: string, start: nat, read: NumberReader) returns (node: Node, pos: nat)
    ensures Read(node, pos) == ParseAt(s, start, read)
    decreases Rem(s, start), 2
  {
    var children: seq<Node> := [];
    pos := start;
    if pos < |s| && s[pos] == '(' {
      children, pos := ParseGroup(s, pos, read);
    }
    var name, length;
    name, pos := ScanName(s, pos);
    length, pos := ScanLength(s, pos, read);
    node := Node(name, length, children);
  }

  /** The `(`-branch of `parse()`: skip `(`, read the subtrees, skip one character. */
  method ParseGroup(s: string, start: nat, read: NumberReader) returns (children: seq<Node>, pos: nat)
    requires start < |s| && s[start] == '('
    ensures Read(children, pos) == GroupAt(s, start, read)
    decreases Rem(s, start), 1
  {
    var first, afterFirst := ParseSubtree(s, start + 1, read);
    children, pos := ParseSiblings(s, afterFirst, [first], read);
    GroupAtUnfold(s, start, read);
    pos := pos + 1;
  }

  /** `while (s[pos] === ',') { pos++; node.children.push(parse()); }` */
  method ParseSiblings(s: string, q: nat, acc: seq<Node>, read: NumberReader) returns (children: seq<Node>, pos: nat)
    ensures Read(children, pos) == ChildrenAt(s, q, acc, read)
    decreases Rem(s, q), 0
  {
    children, pos := acc, q;
    while pos < |s| && s[pos] == ','
      invariant q <= pos
      invariant ChildrenAt(s, pos, children, read) == ChildrenAt(s, q, acc, read)
      decreases Rem(s, pos)
    {
      var comma := pos;
      ChildrenStep(s, comma, children, read);
      var next;
      next, pos := ParseSubtree(s, comma + 1, read);
      children := children + [next];
    }
  }

  /** The name loop of `parse()`: `name += s[pos++]` up to a stop, then trimmed. */
  method ScanName(s: string, q: nat) returns (name: string, pos: nat)
    ensures Read(name, pos) == ReadName(s, q)
  {
    pos := q;
    name := "";
    while pos < |s| && !IsNameStop(s[pos])
      invariant pos == q + |name|
      invariant name + NameText(s, pos) == NameText(s, q)
      decreases |s| - pos
    {
      assert NameText(s, pos) == [s[pos]] + NameText(s, pos + 1);
      assert name + NameText(s, pos) == (name + [s[pos]]) + NameText(s, pos + 1);
      name := name + [s[pos]];
      pos := pos + 1;
    }
    assert name + NameText(s, pos) == name;
    name := Trim(name);
  }

  /** The branch-length part of `parse()`: after a `:`, `num += s[pos++]` over number characters. */
  method ScanLength(s: string, e: nat, read: NumberReader) returns (length: real, pos: nat)
    ensures Read(length, pos) == ReadLength(s, e, read)
  {
    pos := e;
    length := 0.0;
    if pos < |s| && s[pos] == ':' {
      pos := pos + 1;
      var num: string := "";
      while pos < |s| && IsNumberChar(s[pos])
        invariant pos == e + 1 + |num|
        invariant num + NumberText(s, pos) == NumberText(s, e + 1)
        decreases |s| - pos
      {
        assert NumberText(s, pos) == [s[pos]] + NumberText(s, pos + 1);
        assert num + NumberText(s, pos) == (num + [s[pos]]) + NumberText(s, pos + 1);
        num := num + [s[pos]];
        pos := pos + 1;
      }
      assert num + NumberText(s, pos) == num;
      length := BranchLength(read, num);
    }
  }

  /** `parseNewick(s)`: prepare the text, then parse from cursor 0. */
  method ParseNewick(s: string, read: NumberReader) returns (tree: Node)
    ensures tree == Parsed(s, read)
  {
    var text := Prepare(s);
    var end;
    tree, end := ParseSubtree(text, 0, read);
  }
}
