/**
 * The two text helpers of the OCR pipeline: cutting the magazine section
 * out of the text read from a delivery note, and taking the JSON out of a
 * language model's answer. Both are pure string functions.
 */
module OcrTexto {
  import opened Wrappers
  import opened PyText
  import opened Seqs

  const SECTION_MARK := "REVISTAS"
  const END_MARK := "quant itens"
  const HEADER_MARK := "VIr.Venda"

  /** The line that opens the magazine section. */
  predicate MarksSection(linha: string) {
    Contains(linha, SECTION_MARK)
  }

  /** The line that closes it: it starts, in any case, with "quant itens". */
  predicate MarksEnd(linha: string) {
    StartsWith(Lower(linha), END_MARK)
  }

  /** The last line of the column header. */
  predicate MarksHeader(linha: string) {
    Contains(linha, HEADER_MARK)
  }

  /** `xs[a:b]` for non-negative bounds: clamped to the list, and empty when `a >= b`. */
  function Slice<T>(xs: seq<T>, a: nat, b: nat): (r: seq<T>)
    ensures a <= b <= |xs| ==> r == xs[a..b]
    ensures b <= a ==> r == []
  {
    var e := if b <= |xs| then b else |xs|;
    if a >= e then [] else xs[a..e]
  }

  /** What `extrair_revistas_de_texto` returns: `[]` when a marker is missing, otherwise the section's text. */
  datatype Section = NoSection | Section(text: string)

  /** `next((i for ... if header(s)), 0)` over the lines from `i` up to `f`. */
  function HeaderOffset(linhas: seq<string>, i: nat, f: nat, header: string -> bool): nat {
    match FirstWhere(Slice(linhas, i, f), header)
    case Some(c) => c
    case None => 0
  }

  /**
   * The section between the first line that `opens` it and the first line
   * that `closes` it, skipping a column header that ends at the first
   * `header` line; told apart by its markers so that the lemmas below hold
   * for any choice of them.
   */
  function SectionBetween(linhas: seq<string>, opens: string -> bool, closes: string -> bool, header: string -> bool): Section {
    match FirstWhere(linhas, opens)
    case None => NoSection
    case Some(i) =>
      match FirstWhere(linhas, closes)
      case None => NoSection
      case Some(f) => Section(Join(Slice(linhas, i + HeaderOffset(linhas, i, f, header) + 1, f), "\n"))
  }

  /** The section cut out of the lines, with the note's own markers. */
  function SectionOfLines(linhas: seq<string>): Section {
    SectionBetween(linhas, MarksSection, MarksEnd, MarksHeader)
  }

  /** `extrair_revistas_de_texto`; only "\n" is taken as a line break. */
  function ExtrairRevistasDeTexto(texto: string): Section {
    SectionOfLines(SplitLines(texto))
  }

  /** `[]` comes back exactly when no line opens the section or no line closes it. */
  lemma NoSectionWhenUnmarked(linhas: seq<string>, opens: string -> bool, closes: string -> bool, header: string -> bool)
    ensures SectionBetween(linhas, opens, closes, header) == NoSection <==>
      (forall k :: 0 <= k < |linhas| ==> !opens(linhas[k])) ||
      (forall k :: 0 <= k < |linhas| ==> !closes(linhas[k]))
  {
  }

  /**
   * With a header line between the opening line and the first closing
   * line, the section is the lines after that header, up to the closing
   * line.
   */
  lemma SectionAfterHeader(linhas: seq<string>, opens: string -> bool, closes: string -> bool, header: string -> bool, i: nat, h: nat, f: nat)
    requires i <= h < f < |linhas|
    requires opens(linhas[i]) && forall k :: 0 <= k < i ==> !opens(linhas[k])
    requires closes(linhas[f]) && forall k :: 0 <= k < f ==> !closes(linhas[k])
    requires header(linhas[h]) && forall k :: i <= k < h ==> !header(linhas[k])
    ensures SectionBetween(linhas, opens, closes, header) == Section(Join(linhas[h + 1..f], "\n"))
  {
    FirstWhereAt(linhas, opens, i);
    FirstWhereAt(linhas, closes, f);
    HeaderOffsetAt(linhas, i, h, f, header);
    assert Slice(linhas, h + 1, f) == linhas[h + 1..f];
  }

  /** The header offset counts the lines from the opening line to the first header line. */
  lemma HeaderOffsetAt(linhas: seq<string>, i: nat, h: nat, f: nat, header: string -> bool)
    requires i <= h < f <= |linhas|
    requires header(linhas[h]) && forall k :: i <= k < h ==> !header(linhas[k])
    ensures HeaderOffset(linhas, i, f, header) == h - i
  {
    var mid := linhas[i..f];
    assert forall k :: 0 <= k < h - i ==> mid[k] == linhas[i + k];
    assert mid[h - i] == linhas[h];
    FirstWhereAt(mid, header, h - i);
  }

  /** With no header line there, the section starts right after the opening line. */
  lemma SectionWithoutHeader(linhas: seq<string>, opens: string -> bool, closes: string -> bool, header: string -> bool, i: nat, f: nat)
    requires i < f < |linhas|
    requires opens(linhas[i]) && forall k :: 0 <= k < i ==> !opens(linhas[k])
    requires closes(linhas[f]) && forall k :: 0 <= k < f ==> !closes(linhas[k])
    requires forall k :: i <= k < f ==> !header(linhas[k])
    ensures SectionBetween(linhas, opens, closes, header) == Section(Join(linhas[i + 1..f], "\n"))
  {
    FirstWhereAt(linhas, opens, i);
    FirstWhereAt(linhas, closes, f);
    var mid := linhas[i..f];
    assert forall k :: 0 <= k < |mid| ==> mid[k] == linhas[i + k];
    assert Slice(linhas, i, f) == mid;
    assert HeaderOffset(linhas, i, f, header) == 0;
    assert Slice(linhas, i + 1, f) == linhas[i + 1..f];
  }

  /** A closing line at or before the opening line leaves an empty section: "" and not `[]`. */
  lemma EndBeforeSectionIsEmpty(linhas: seq<string>, opens: string -> bool, closes: string -> bool, header: string -> bool, i: nat, f: nat)
    requires f <= i < |linhas|
    requires opens(linhas[i]) && forall k :: 0 <= k < i ==> !opens(linhas[k])
    requires closes(linhas[f]) && forall k :: 0 <= k < f ==> !closes(linhas[k])
    ensures SectionBetween(linhas, opens, closes, header) == Section("")
  {
    FirstWhereAt(linhas, opens, i);
    FirstWhereAt(linhas, closes, f);
  }

  // ---------------------------------------------------------------------
  // JSON out of a model's answer
  // ---------------------------------------------------------------------

  const JSON_FENCE := "```json"
  const FENCE := "```"
  const DOUBLE_FENCE := "``````"

  /** The exception `match_simples.group(1)` raises: the pattern has no group. */
  datatype Raised = IndexError

  /**
   * The group of `` ```json(.*?)``` `` with `re.DOTALL`: from the first
   * json fence to the first plain fence after it. A later json fence
   * cannot match when the first has no closing fence after it.
   */
  function FencedJson(s: string): Option<string> {
    match Find(s, JSON_FENCE, 0)
    case None => None
    case Some(p) =>
      match Find(s, FENCE, p + |JSON_FENCE|)
      case None => None
      case Some(c) => Some(s[p + |JSON_FENCE|..c])
  }

  /** `remover_json_da_resposta` */
  function RemoverJsonDaResposta(texto: string): Result<string, Raised> {
    match FencedJson(texto)
    case Some(body) => Ok(Strip(body))
    case None => if Contains(texto, DOUBLE_FENCE) then Err(IndexError) else Ok(Strip(texto))
  }

  /**
   * The block taken is the first json fence's, up to the nearest closing
   * fence: no fence starts inside it.
   */
  lemma FencedJsonIsFirstBlock(s: string)
    ensures FencedJson(s).Some? ==> exists p: nat ::
      && OccursAt(s, JSON_FENCE, p) && (forall j :: 0 <= j < p ==> !OccursAt(s, JSON_FENCE, j))
      && var c := p + |JSON_FENCE| + |FencedJson(s).value|;
         && OccursAt(s, FENCE, c) && FencedJson(s).value == s[p + |JSON_FENCE|..c]
         && forall j :: p + |JSON_FENCE| <= j < c ==> !OccursAt(s, FENCE, j)
  {
  }

  /** No backtick at `j`, so no fence starts there. */
  lemma NoFenceWithoutBacktick(s: string, j: nat)
    requires j < |s| && s[j] != '`'
    ensures !OccursAt(s, JSON_FENCE, j) && !OccursAt(s, FENCE, j)
  {
    if j + 7 <= |s| {
      assert s[j..j + 7][0] == s[j];
    }
    if j + 3 <= |s| {
      assert s[j..j + 3][0] == s[j];
    }
  }

  /**
   * Wrapping a backtick-free body in a json fence, with backtick-free text
   * before it, gives the body back, stripped.
   */
  lemma FencedBodyRoundTrip(pre: string, body: string, post: string)
    requires forall k :: 0 <= k < |pre| ==> pre[k] != '`'
    requires forall k :: 0 <= k < |body| ==> body[k] != '`'
    ensures RemoverJsonDaResposta(pre + JSON_FENCE + body + FENCE + post) == Ok(Strip(body))
  {
    var s := pre + JSON_FENCE + body + FENCE + post;
    var p := |pre|;
    var c := p + |JSON_FENCE| + |body|;
    assert forall k :: 0 <= k < p ==> s[k] == pre[k];
    assert s[p..p + |JSON_FENCE|] == JSON_FENCE;
    FenceAfterPlainText(s, JSON_FENCE, 0, p);
    assert forall k :: p + |JSON_FENCE| <= k < c ==> s[k] == body[k - p - |JSON_FENCE|];
    assert s[c..c + |FENCE|] == FENCE;
    FenceAfterPlainText(s, FENCE, p + |JSON_FENCE|, c);
    assert s[p + |JSON_FENCE|..c] == body;
  }

  /** Past backtick-free text, the first fence found is the one that follows it. */
  lemma FenceAfterPlainText(s: string, fence: string, start: nat, x: nat)
    requires fence != [] && fence[0] == '`'
    requires start <= x && OccursAt(s, fence, x)
    requires forall k :: start <= k < x ==> s[k] != '`'
    ensures Find(s, fence, start) == Some(x)
  {
    forall j | start <= j < x
      ensures !OccursAt(s, fence, j)
    {
      if j + |fence| <= |s| {
        assert s[j..j + |fence|][0] == s[j];
      }
    }
    FindAt(s, fence, start, x);
  }

  /**
   * Without a json block, six backticks in a row make the fallback pattern
   * match, and reading its missing group raises.
   */
  lemma SixBackticksRaise(s: string)
    requires FencedJson(s).None? && Contains(s, DOUBLE_FENCE)
    ensures RemoverJsonDaResposta(s) == Err(IndexError)
  {
  }

  /** An answer with no fence at all comes back stripped. */
  lemma UnfencedAnswerIsStripped(s: string)
    requires forall k :: 0 <= k < |s| ==> s[k] != '`'
    ensures RemoverJsonDaResposta(s) == Ok(Strip(s))
  {
    forall j | 0 <= j
      ensures !OccursAt(s, JSON_FENCE, j) && !OccursAt(s, DOUBLE_FENCE, j)
    {
      if j < |s| {
        NoFenceWithoutBacktick(s, j);
        if j + 6 <= |s| {
          assert s[j..j + 6][0] == s[j];
        }
      }
    }
  }
}
