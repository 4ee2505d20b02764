/**
 * The FASTA/FASTQ inspector: detecting the format from the first character
 * of the trimmed content, escaping record names for HTML, and the quality
 * totals of a FASTQ file. The record parsers are foreign to this model;
 * their records are parameters.
 */
module SeqFormats {
  import opened Wrappers
  import JsText
  import opened Seqs

  // ---------------------------------------------------------------------
  // Format detection

  /** The badge shown above the records. */
  datatype Format = Fastq | Fasta | Unknown

  /** Which view renders the content. */
  datatype Renderer = FastaView | FastqView | UnknownMessage

  /** The two flags set from the first character of the content. */
  datatype Flags = Flags(isFastq: bool, isFasta: bool)

  /** `isFastq` and `isFasta` for non-empty trimmed content. */
  function DetectFlags(content: string): Flags
    requires content != []
  {
    Flags(content[0] == '@', content[0] == '>')
  }

  /** The badge: FASTQ is tested first. */
  function Badge(f: Flags): Format {
    if f.isFastq then Fastq else if f.isFasta then Fasta else Unknown
  }

  /** The renderer: FASTA is tested first. */
  function Dispatch(f: Flags): Renderer {
    if f.isFasta then FastaView else if f.isFastq then FastqView else UnknownMessage
  }

  /**
   * What `update` shows for the text area's value: nothing but a prompt
   * (`None`) when the trimmed content is empty, otherwise the badge and
   * the renderer chosen.
   */
  function Inspect(text: string): Option<(Format, Renderer)> {
    var content := JsText.Trim(text);
    if content == [] then None
    else var f := DetectFlags(content); Some((Badge(f), Dispatch(f)))
  }

  /**
   * The format is read off the first character of the trimmed content:
   * `@` is FASTQ, `>` is FASTA, anything else Unknown; and although the
   * badge and the renderer test the flags in opposite orders, they always
   * agree, because the two flags are never set together.
   */
  lemma InspectSpec(text: string)
    ensures var content, r := JsText.Trim(text), Inspect(text);
      && (r.None? <==> content == [])
      && (r.Some? ==>
            && (r.value.0 == Fastq <==> content[0] == '@')
            && (r.value.0 == Fasta <==> content[0] == '>')
            && r.value.1 == (match r.value.0
                             case Fasta => FastaView
                             case Fastq => FastqView
                             case Unknown => UnknownMessage))
  {
  }

  /** White space around the content does not change what is shown. */
  lemma InspectIgnoresSpace(text: string)
    ensures Inspect(JsText.Trim(text)) == Inspect(text)
  {
    JsText.TrimIdempotent(text);
  }

  // ---------------------------------------------------------------------
  // escapeHtml

  /** `s.replace(/c/g, rep)` for a single character `c`. */
  function ReplaceAll(s: string, c: char, rep: string): string {
    if s == [] then [] else ReplaceAll(s[..|s| - 1], c, rep) + (if s[|s| - 1] == c then rep else [s[|s| - 1]])
  }

  /** `escapeHtml(s)`: the three `replace` calls, `&` first. */
  function EscapeHtml(s: string): string {
    ReplaceAll(ReplaceAll(ReplaceAll(s, '&', "&amp;"), '<', "&lt;"), '>', "&gt;")
  }

  /** The entity a single character becomes. */
  function EscapeChar(c: char): string {
    if c == '&' then "&amp;" else if c == '<' then "&lt;" else if c == '>' then "&gt;" else [c]
  }

  /** Escaping every character on its own, in one pass. */
  function EscapeEach(s: string): string {
    if s == [] then [] else EscapeEach(s[..|s| - 1]) + EscapeChar(s[|s| - 1])
  }

  /** Replacing distributes over concatenation. */
  lemma {:induction false} ReplaceConcat(a: string, b: string, c: char, rep: string)
    ensures ReplaceAll(a + b, c, rep) == ReplaceAll(a, c, rep) + ReplaceAll(b, c, rep)
    decreases |b|
  {
    if b == [] {
      assert a + b == a;
    } else {
      var init, last := b[..|b| - 1], b[|b| - 1];
      var ab := a + b;
      assert ab[..|ab| - 1] == a + init;
      assert ab[|ab| - 1] == last;
      ReplaceConcat(a, init, c, rep);
    }
  }

  /** Replacing a character that does not occur changes nothing. */
  lemma {:induction false} ReplaceAbsent(s: string, c: char, rep: string)
    requires c !in s
    ensures ReplaceAll(s, c, rep) == s
    decreases |s|
  {
    if s != [] {
      var init := s[..|s| - 1];
      assert c !in init by {
        assert forall k | 0 <= k < |init| :: init[k] == s[k];
      }
      ReplaceAbsent(init, c, rep);
      assert init + [s[|s| - 1]] == s;
    }
  }

  /** Replacing within a single character. */
  lemma ReplaceSingle(x: char, c: char, rep: string)
    ensures ReplaceAll([x], c, rep) == if x == c then rep else [x]
  {
    assert [x][..0] == [];
  }

  /** What the three replacements make of the result of the first on one character. */
  lemma EscapeOneChar(x: char)
    ensures var e1 := if x == '&' then "&amp;" else [x];
      ReplaceAll(ReplaceAll(e1, '<', "&lt;"), '>', "&gt;") == EscapeChar(x)
  {
    if x == '&' {
      ReplaceAbsent("&amp;", '<', "&lt;");
      ReplaceAbsent("&amp;", '>', "&gt;");
    } else if x == '<' {
      ReplaceSingle(x, '<', "&lt;");
      ReplaceAbsent("&lt;", '>', "&gt;");
    } else {
      ReplaceSingle(x, '<', "&lt;");
      ReplaceSingle(x, '>', "&gt;");
    }
  }

  /**
   * Because `&` is replaced first, no entity inserted by a later
   * replacement is escaped again: the three chained replacements escape
   * every character exactly once.
   */
  lemma {:induction false} EscapeHtmlSinglePass(s: string)
    ensures EscapeHtml(s) == EscapeEach(s)
    decreases |s|
  {
    if s != [] {
      var init, x := s[..|s| - 1], s[|s| - 1];
      EscapeHtmlSinglePass(init);
      var e1 := if x == '&' then "&amp;" else [x];
      var r1 := ReplaceAll(init, '&', "&amp;");
      assert ReplaceAll(s, '&', "&amp;") == r1 + e1;
      ReplaceConcat(r1, e1, '<', "&lt;");
      var r2, e2 := ReplaceAll(r1, '<', "&lt;"), ReplaceAll(e1, '<', "&lt;");
      ReplaceConcat(r2, e2, '>', "&gt;");
      EscapeOneChar(x);
    }
  }

  /** A name without `&`, `<` and `>` is shown as it is. */
  lemma EscapeHtmlPlain(s: string)
    requires '&' !in s && '<' !in s && '>' !in s
    ensures EscapeHtml(s) == s
  {
    ReplaceAbsent(s, '&', "&amp;");
    ReplaceAbsent(s, '<', "&lt;");
    ReplaceAbsent(s, '>', "&gt;");
  }

  /** Escaping adds four characters per `&` and three per `<` and per `>`. */
  lemma {:induction false} EscapeLength(s: string)
    ensures |EscapeEach(s)| == |s| + 4 * Count(s, '&') + 3 * Count(s, '<') + 3 * Count(s, '>')
    decreases |s|
  {
    if s != [] {
      EscapeLength(s[..|s| - 1]);
    }
  }

  /** The escaped text holds no `<` and no `>`. */
  lemma {:induction false} EscapeNoAngles(s: string)
    ensures '<' !in EscapeEach(s) && '>' !in EscapeEach(s)
    decreases |s|
  {
    if s != [] {
      EscapeNoAngles(s[..|s| - 1]);
      var e := EscapeChar(s[|s| - 1]);
      assert '<' !in e && '>' !in e;
    }
  }

  /**
   * The output of `escapeHtml` holds no `<` or `>` and is longer by the
   * entities' extra characters.
   */
  lemma EscapeHtmlSpec(s: string)
    ensures '<' !in EscapeHtml(s) && '>' !in EscapeHtml(s)
    ensures |EscapeHtml(s)| == |s| + 4 * Count(s, '&') + 3 * Count(s, '<') + 3 * Count(s, '>')
  {
    EscapeHtmlSinglePass(s);
    EscapeNoAngles(s);
    EscapeLength(s);
  }

  // ---------------------------------------------------------------------
  // FASTQ quality totals

  /**
   * `ch.charCodeAt(0)` for a character produced by iterating a string:
   * the character's code, or the high surrogate of its UTF-16 encoding
   * when it lies outside the Basic Multilingual Plane.
   */
  function CodeUnit0(c: char): (u: int)
    ensures 0 <= u < 0x10000
    ensures c as int < 0x10000 ==> u == c as int
  {
    if c as int < 0x10000 then c as int else 0xD800 + (c as int - 0x10000) / 0x400
  }

  /** The Phred score of a quality character: its code minus 33. */
  function Phred(c: char): int {
    CodeUnit0(c) - 33
  }

  /** One record as the foreign FASTQ parser returns it. */
  datatype FastqRecord = FastqRecord(name: string, sequence: string, quality: string)

  /** `totalBases`, `totalQual` and `qualCount`. */
  datatype Totals = Totals(bases: nat, qualSum: int, qualCount: nat)

  /** The sum of the Phred scores of a quality string. */
  function QualitySum(q: string): int {
    if q == [] then 0 else QualitySum(q[..|q| - 1]) + Phred(q[|q| - 1])
  }

  /** The totals after the records, in order. */
  function RecordsTotals(rs: seq<FastqRecord>): Totals {
    if rs == [] then Totals(0, 0, 0)
    else
      var t, r := RecordsTotals(rs[..|rs| - 1]), rs[|rs| - 1];
      Totals(t.bases + |r.sequence|, t.qualSum + QualitySum(r.quality), t.qualCount + |r.quality|)
  }

  /** The accumulation loops of `renderFastq`: over the records, and within each over its quality characters. */
  method FastqTotals(records: seq<FastqRecord>) returns (totals: Totals)
    ensures totals == RecordsTotals(records)
  {
    var totalBases: nat, totalQual: int, qualCount: nat := 0, 0, 0;
    for k := 0 to |records|
      invariant Totals(totalBases, totalQual, qualCount) == RecordsTotals(records[..k])
    {
      var rec := records[k];
      ghost var before := Totals(totalBases, totalQual, qualCount);
      totalBases := totalBases + |rec.sequence|;
      var qual := rec.quality;
      for j := 0 to |qual|
        invariant totalQual == before.qualSum + QualitySum(qual[..j])
        invariant qualCount == before.qualCount + j
      {
        assert qual[..j + 1][..j] == qual[..j];
        var phred := Phred(qual[j]);
        totalQual := totalQual + phred;
        qualCount := qualCount + 1;
      }
      assert qual[..|qual|] == qual;
      assert records[..k + 1][..k] == records[..k];
    }
    assert records[..|records|] == records;
    totals := Totals(totalBases, totalQual, qualCount);
  }

  /** The quality strings of all records, joined. */
  function JoinQualities(rs: seq<FastqRecord>): string {
    if rs == [] then [] else JoinQualities(rs[..|rs| - 1]) + rs[|rs| - 1].quality
  }

  /** `records.map(r => r.sequence).join('')`. */
  function JoinSequences(rs: seq<FastqRecord>): string {
    if rs == [] then [] else JoinSequences(rs[..|rs| - 1]) + rs[|rs| - 1].sequence
  }

  /** Quality sums add up over concatenation. */
  lemma {:induction false} QualitySumConcat(a: string, b: string)
    ensures QualitySum(a + b) == QualitySum(a) + QualitySum(b)
    decreases |b|
  {
    if b == [] {
      assert a + b == a;
    } else {
      var ab := a + b;
      assert ab[..|ab| - 1] == a + b[..|b| - 1];
      assert ab[|ab| - 1] == b[|b| - 1];
      QualitySumConcat(a, b[..|b| - 1]);
    }
  }

  /**
   * The totals are those of the whole file: `totalBases` is the length of
   * all sequences joined, and `qualCount` grows by one and `totalQual` by
   * the Phred score for every quality character of every record.
   */
  lemma {:induction false} TotalsOfJoined(rs: seq<FastqRecord>)
    ensures var t, q := RecordsTotals(rs), JoinQualities(rs);
      t == Totals(|JoinSequences(rs)|, QualitySum(q), |q|)
    decreases |rs|
  {
    if rs != [] {
      TotalsOfJoined(rs[..|rs| - 1]);
      QualitySumConcat(JoinQualities(rs[..|rs| - 1]), rs[|rs| - 1].quality);
    }
  }

  /** The Avg Quality stat: `None` (shown as `-`) when there is no quality character. */
  function AverageQuality(t: Totals): (r: Option<real>)
    ensures r.None? <==> t.qualCount == 0
  {
    if t.qualCount > 0 then Some(t.qualSum as real / t.qualCount as real) else None
  }

  /** A printable quality character, `!` (Phred 0) to `~` (Phred 93). */
  predicate Printable(c: char) {
    '!' <= c <= '~'
  }

  /** A printable quality string has Phred scores from 0 to 93. */
  lemma {:induction false} QualitySumRange(q: string)
    requires forall i | 0 <= i < |q| :: Printable(q[i])
    ensures 0 <= QualitySum(q) <= 93 * |q|
    decreases |q|
  {
    if q != [] {
      var init := q[..|q| - 1];
      assert forall i | 0 <= i < |init| :: init[i] == q[i];
      QualitySumRange(init);
    }
  }

  /** A mean of scores from 0 to 93 lies from 0 to 93. */
  lemma MeanRange(sum: int, n: int)
    requires n > 0 && 0 <= sum <= 93 * n
    ensures 0.0 <= sum as real / n as real <= 93.0
  {
    assert sum as real <= 93.0 * n as real;
  }

  /**
   * The average quality is shown as `-` exactly when the file has no
   * quality character; for printable quality strings it is a mean from
   * 0 to 93.
   */
  lemma AverageQualitySpec(rs: seq<FastqRecord>)
    ensures AverageQuality(RecordsTotals(rs)).None? <==> JoinQualities(rs) == []
    ensures (forall i | 0 <= i < |JoinQualities(rs)| :: Printable(JoinQualities(rs)[i])) ==>
      match AverageQuality(RecordsTotals(rs))
      case None => true
      case Some(avg) => 0.0 <= avg <= 93.0
  {
    TotalsOfJoined(rs);
    var q := JoinQualities(rs);
    if (forall i | 0 <= i < |q| :: Printable(q[i])) && q != [] {
      QualitySumRange(q);
      MeanRange(QualitySum(q), |q|);
    }
  }

  /** One record of quality `IIII` has average quality 40. */
  lemma AverageQualityExample()
    ensures AverageQuality(RecordsTotals([FastqRecord("read1", "ACGT", "IIII")])) == Some(40.0)
  {
    var q := "IIII";
    assert q[..3] == "III" && "III"[..2] == "II" && "II"[..1] == "I" && "I"[..0] == [];
    assert QualitySum(q) == 160;
    var rs := [FastqRecord("read1", "ACGT", "IIII")];
    assert rs[..0] == [];
  }
}
