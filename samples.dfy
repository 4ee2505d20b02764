/**
 * Worked instances: the builder's sample tree `((A:0.1,B:0.1):0.05,C:0.15);`
 * placed and measured, and short Newick texts parsed.
 */
module Samples {
  import opened Wrappers
  import opened Newick
  import opened TreeLayout
  import opened TreePositions
  import opened SampleLetters

  /** The sample tree as parsed: an unnamed root of length 0 over `(A,B)` and `C`. */
  function SampleTree(): Node {
    Node("", 0.0, [Node("", 0.05, [Node("A", 0.1, []), Node("B", 0.1, [])]), Node("C", 0.15, [])])
  }

  /** The sample tree's leaves get 0, 1 and 2, the inner node 0.5, the root 1.25, and the depth scale is 0.15. */
  lemma SamplePlacement()
    ensures LeafYs(Assigned(SampleTree(), 0).value) == [0.0, 1.0, 2.0]
    ensures Assigned(SampleTree(), 0).value.children[0].yPos == 0.5
    ensures Assigned(SampleTree(), 0).value.yPos == 1.25
    ensures MaxD(SampleTree()) == 0.15
  {
    var t := SampleTree();
    var ab := t.children[0];
    AssignedLeafYs(t, 0);
    assert Consecutive(0, 3) == [0.0, 1.0, 2.0];
    var p := Assigned(t, 0).value;
    assert ab.children[0].children == [] && ab.children[1].children == [];
    var pab := Assigned(ab, 0).value;
    assert pab.children == [Placed("A", 0.1, 0.0, []), Placed("B", 0.1, 1.0, [])];
    assert SumY(pab.children) == 1.0;
    assert pab.yPos == 0.5;
    var pc := Assigned(t.children[1], 2).value;
    assert pc == Placed("C", 0.15, 2.0, []);
    assert p.children == [pab, pc];
    assert SumY(p.children) == 2.5;
    assert MaxDepth(ab, 0.0) == 0.15;
    assert MaxDepth(t, 0.0) == 0.15;
  }

  /**
   * The sample text `((A:0.1,B:0.1):0.05,C:0.15);` parses to the sample
   * tree, given a number reader that reads its three lengths.
   */
  lemma SampleParse(read: NumberReader)
    requires read("0.1") == Some(0.1) && read("0.05") == Some(0.05) && read("0.15") == Some(0.15)
    ensures Parsed("((A:0.1,B:0.1):0.05,C:0.15);", read) == SampleTree()
  {
    var s := "((A:0.1,B:0.1):0.05,C:0.15)";
    SampleText();
    assert s + ";" == "((A:0.1,B:0.1):0.05,C:0.15);";
    SampleParseAt(s, read);
  }

  /** Dropping the `;` leaves the group, whose characters are as listed. */
  lemma SampleText()
    ensures var s := "((A:0.1,B:0.1):0.05,C:0.15)";
      Prepare(s + ";") == s && SampleChars(s)
  {
    var s := "((A:0.1,B:0.1):0.05,C:0.15)";
    PrepareSpec(s);
    JsText.TrimUnchanged(s);
    SampleCharsHold();
  }

  /** `parse()` over the sample text, step by step. */
  lemma SampleParseAt(s: string, read: NumberReader)
    requires SampleChars(s)
    requires read("0.1") == Some(0.1) && read("0.05") == Some(0.05) && read("0.15") == Some(0.15)
    ensures ParseAt(s, 0, read) == Read(SampleTree(), 27)
  {
    SampleRootKids(s, read);
    assert NameText(s, 27) == [];
    ParseInner(s, 0, read, SampleTree().children, 27, "", 27, 0.0, 27);
  }

  /** The root's child list: the inner node and `C`. */
  lemma SampleRootKids(s: string, read: NumberReader)
    requires SampleChars(s)
    requires read("0.1") == Some(0.1) && read("0.05") == Some(0.05) && read("0.15") == Some(0.15)
    ensures GroupAt(s, 0, read) == Read(SampleTree().children, 27)
  {
    var ab, c := SampleTree().children[0], Node("C", 0.15, []);
    SampleInner(s, read);
    assert s[22..26] == "0.15";
    SampleLeaf(s, 20, 'C', "0.15", 0.15, read);
    assert [ab] + [c] == [ab, c];
    assert ChildrenAt(s, 26, [ab, c], read) == Read([ab, c], 26);
    CommaValue(s, 19, read, [ab], c, 26, [ab, c], 26);
    GroupValue(s, 0, read, ab, 19, [ab, c], 26);
  }

  /** The inner node `(A:0.1,B:0.1):0.05` of the sample text. */
  lemma SampleInner(s: string, read: NumberReader)
    requires SampleChars(s)
    requires read("0.1") == Some(0.1) && read("0.05") == Some(0.05) && read("0.15") == Some(0.15)
    ensures ParseAt(s, 1, read) == Read(Node("", 0.05, [Node("A", 0.1, []), Node("B", 0.1, [])]), 19)
  {
    var a, b := Node("A", 0.1, []), Node("B", 0.1, []);
    assert s[4..7] == "0.1";
    SampleLeaf(s, 2, 'A', "0.1", 0.1, read);
    assert s[10..13] == "0.1";
    SampleLeaf(s, 8, 'B', "0.1", 0.1, read);
    assert [a] + [b] == [a, b];
    assert ChildrenAt(s, 13, [a, b], read) == Read([a, b], 13);
    CommaValue(s, 7, read, [a], b, 13, [a, b], 13);
    GroupValue(s, 1, read, a, 7, [a, b], 13);
    SampleInnerLength(s, read);
    ParseInner(s, 1, read, [a, b], 14, "", 14, 0.05, 19);
  }

  /** A one-letter leaf `X:<t>` at `p` whose length text `t` reads as `len`. */
  lemma SampleLeaf(s: string, p: nat, x: char, t: string, len: real, read: NumberReader)
    requires p + 2 + |t| <= |s| && t != []
    requires s[p] == x && !IsNameStop(x) && x != '(' && !JsText.IsJsWhitespace(x) && s[p + 1] == ':'
    requires s[p + 2..p + 2 + |t|] == t && forall k | 0 <= k < |t| :: IsNumberChar(t[k])
    requires p + 2 + |t| < |s| ==> !IsNumberChar(s[p + 2 + |t|])
    requires read(t) == Some(len)
    ensures ParseAt(s, p, read) == Read(Node([x], len, []), p + 2 + |t|)
  {
    var e := p + 2 + |t|;
    NameTextUpTo(s, p, p + 1);
    assert s[p..p + 1] == [x];
    JsText.TrimUnchanged([x]);
    assert forall k | p + 2 <= k < e :: s[k] == t[k - p - 2];
    NumberTextUpTo(s, p + 2, e);
    ParseLeaf(s, p, read, [x], p + 1, len, e);
  }

  /** The unnamed inner node of the sample text and its length. */
  lemma SampleInnerLength(s: string, read: NumberReader)
    requires SampleChars(s)
    requires read("0.05") == Some(0.05)
    ensures ReadName(s, 14) == Read("", 14)
    ensures ReadLength(s, 14, read) == Read(0.05, 19)
  {
    NumberTextUpTo(s, 15, 19);
    assert s[15..19] == "0.05";
  }

  /**
   * The closing `)` is skipped without a check: the unclosed text `(A,B`
   * still reads as an unnamed root over the leaves `A` and `B`.
   */
  lemma UnclosedGroup(read: NumberReader)
    ensures Parsed("(A,B", read) == Node("", 0.0, [Node("A", 0.0, []), Node("B", 0.0, [])])
  {
    var s := "(A,B";
    JsText.TrimUnchanged(s);
    assert Prepare(s) == s;
    UnclosedParse(s, read);
  }

  /** `parse()` over a text `(A,B`, step by step. */
  lemma UnclosedParse(s: string, read: NumberReader)
    requires |s| == 4 && s[0] == '(' && s[1] == 'A' && s[2] == ',' && s[3] == 'B'
    ensures ParseAt(s, 0, read) == Read(Node("", 0.0, [Node("A", 0.0, []), Node("B", 0.0, [])]), 5)
  {
    var a, b := Node("A", 0.0, []), Node("B", 0.0, []);
    NameTextUpTo(s, 1, 2);
    NameTextUpTo(s, 3, 4);
    assert s[1..2] == "A" && s[3..4] == "B" && NameText(s, 5) == [];
    JsText.TrimUnchanged("A");
    JsText.TrimUnchanged("B");
    ParseLeaf(s, 1, read, "A", 2, 0.0, 2);
    ParseLeaf(s, 3, read, "B", 4, 0.0, 4);
    assert [a] + [b] == [a, b];
    assert ChildrenAt(s, 4, [a, b], read) == Read([a, b], 4);
    CommaValue(s, 2, read, [a], b, 4, [a, b], 4);
    GroupValue(s, 0, read, a, 2, [a, b], 4);
    ParseInner(s, 0, read, [a, b], 5, "", 5, 0.0, 5);
  }
}

/**
 * The characters of the builder's sample text, stated in small groups so
 * that each group is checked against the literal on its own.
 */
module SampleLetters {
  /** The characters of the sample text without its `;`, one by one. */
  predicate SampleChars(s: string) {
    |s| == 27 && OpenChars(s) && FirstChars(s) && SecondChars(s) && RootChars(s)
  }

  /** The characters `((A:` at 0 .. 3. */
  predicate OpenChars(s: string)
    requires |s| == 27
  {
    s[0] == '(' && s[1] == '(' && s[2] == 'A' && s[3] == ':'
  }

  /** The characters `0.1,B` at 4 .. 8. */
  predicate FirstChars(s: string)
    requires |s| == 27
  {
    s[4] == '0' && s[5] == '.' && s[6] == '1' && s[7] == ',' && s[8] == 'B'
  }

  /** The characters `:0.1)` at 9 .. 13. */
  predicate SecondChars(s: string)
    requires |s| == 27
  {
    s[9] == ':' && s[10] == '0' && s[11] == '.' && s[12] == '1' && s[13] == ')'
  }

  /** The characters `:0.05,C:0.15)` at 14 .. 26. */
  predicate RootChars(s: string)
    requires |s| == 27
  {
    && s[14] == ':' && s[15] == '0' && s[16] == '.' && s[17] == '0' && s[18] == '5' && s[19] == ','
    && s[20] == 'C' && s[21] == ':' && s[22] == '0' && s[23] == '.' && s[24] == '1' && s[25] == '5' && s[26] == ')'
  }

  /** The sample text has the characters `SampleChars` lists. */
  lemma SampleCharsHold()
    ensures SampleChars("((A:0.1,B:0.1):0.05,C:0.15)")
  {
    OpenCharsHold();
    FirstCharsHold();
    SecondCharsHold();
    RootCharsHold();
  }

  /** The sample text has the characters `((A:`. */
  lemma OpenCharsHold()
    ensures OpenChars("((A:0.1,B:0.1):0.05,C:0.15)")
  {
  }

  /** The sample text has the characters `0.1,B`. */
  lemma FirstCharsHold()
    ensures FirstChars("((A:0.1,B:0.1):0.05,C:0.15)")
  {
  }

  /** The sample text has the characters `:0.1)`. */
  lemma SecondCharsHold()
    ensures SecondChars("((A:0.1,B:0.1):0.05,C:0.15)")
  {
  }

  /** The sample text has the characters `:0.05,C:0.15)`. */
  lemma RootCharsHold()
    ensures RootChars("((A:0.1,B:0.1):0.05,C:0.15)")
  {
  }
}
