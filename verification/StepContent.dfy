/**
 The blocks of a content step, as they are read from its stored JSON: the list of blocks, items that
 are no text block being skipped, or one block for the older body or text field.
 */
module StepContent {
  import opened Common
  import opened Json
  import opened Lists
  import opened Text

  const MAX_CONTENT_BLOCKS := 100
  const BLOCK_TEXT_MAX := 20000

  datatype Block = Block(id: string, text: string)

  /** Python's `not value`. */
  predicate Falsy(j: Json) {
    match j
    case Null => true
    case Bool(b) => !b
    case Int(n) => n == 0
    case Float(r) => r == 0.0
    case Str(s) => s == ""
    case Arr(items) => items == []
    case Obj(fields) => fields == map[]
  }

  /** A block needs type "text", or none, and a text; a missing text falls back to the body. */
  function BlockOf(render: Render, item: Json, index: nat): Option<Block> {
    var kind := Get(item, TYPE);
    var text := if Get(item, TEXT) == Null then Get(item, BODY) else Get(item, TEXT);
    if item.Obj? && (Falsy(kind) || kind == Str("text")) && text.Str?
    then Some(Block(IdOf(render, Get(item, ID), "block-" + Decimal(index + 1)), Truncate(text.s, BLOCK_TEXT_MAX)))
    else None
  }

  function BlocksOf(render: Render, raw: seq<Json>): (blocks: seq<Option<Block>>)
    ensures |blocks| == |raw| && forall i :: 0 <= i < |raw| ==> blocks[i] == BlockOf(render, raw[i], i)
  {
    seq(|raw|, i requires 0 <= i < |raw| => BlockOf(render, raw[i], i))
  }

  /** At most the first hundred blocks. */
  function ListedBlocks(render: Render, raw: seq<Json>): seq<Block> {
    var all := Collect(BlocksOf(render, raw));
    all[..Min(|all|, MAX_CONTENT_BLOCKS)]
  }

  function LegacyBlocks(content: Json): seq<Block> {
    if NonBlank(Get(content, BODY)) then [Block("legacy-body", Trimmed(Get(content, BODY)))]
    else if NonBlank(Get(content, TEXT)) then [Block("legacy-body", Trimmed(Get(content, TEXT)))]
    else []
  }

  /** `normalize_step_content`. */
  function Normalized(render: Render, content: Json): seq<Block> {
    var listed := ListedBlocks(render, Items(Get(content, BLOCKS)));
    if !content.Obj? then [] else if listed != [] then listed else LegacyBlocks(content)
  }

  function BlockCount(render: Render, content: Json): nat {
    |Normalized(render, content)|
  }

  lemma {:induction false} CollectedSoFar(blocks: seq<Option<Block>>, i: nat, n: nat)
    requires i <= n <= |blocks|
    ensures CollectUpTo(blocks, i) <= CollectUpTo(blocks, n)
  {
    if i < n {
      CollectedSoFar(blocks, i, n - 1);
    }
  }

  method ReadBlocks(render: Render, raw: seq<Json>) returns (blocks: seq<Block>)
    ensures blocks == ListedBlocks(render, raw)
  {
    hide BlockOf;
    ghost var all := BlocksOf(render, raw);
    blocks := [];
    for i := 0 to |raw|
      invariant blocks == CollectUpTo(all, i) && |blocks| <= MAX_CONTENT_BLOCKS
    {
      CollectedSoFar(all, i, |raw|);
      if |blocks| >= MAX_CONTENT_BLOCKS {
        assert blocks == ListedBlocks(render, raw);
        return;
      }
      var parsed := BlockOf(render, raw[i], i);
      if parsed.Some? {
        blocks := blocks + [parsed.value];
      }
    }
  }

  lemma NothingToRead(render: Render, content: Json)
    ensures ListedBlocks(render, []) == []
    ensures content.Obj? && content.fields == map[] ==> Normalized(render, content) == []
  {
    assert Collect(BlocksOf(render, [])) == [];
  }

  method NormalizeStepContent(render: Render, content: Json) returns (blocks: seq<Block>)
    ensures blocks == Normalized(render, content)
  {
    hide ListedBlocks, NonBlank, Trimmed;
    NothingToRead(render, content);
    if !content.Obj? || content.fields == map[] {
      return [];
    }
    var raw := Get(content, BLOCKS);
    if raw.Arr? && raw.items != [] {
      blocks := ReadBlocks(render, raw.items);
      if blocks != [] {
        return;
      }
    }
    if NonBlank(Get(content, BODY)) {
      return [Block("legacy-body", Trimmed(Get(content, BODY)))];
    }
    if NonBlank(Get(content, TEXT)) {
      return [Block("legacy-body", Trimmed(Get(content, TEXT)))];
    }
    blocks := [];
  }

  /** A text block: of type "text" or of an empty type, with a text, or a body in its place. */
  predicate IsTextBlock(item: Json) {
    && item.Obj?
    && (TYPE in item.fields ==>
          item.fields[TYPE] in {Str("text"), Null, Bool(false), Int(0), Float(0.0), Str(""), Arr([]), Obj(map[])})
    && (if TEXT in item.fields && item.fields[TEXT] != Null then item.fields[TEXT].Str?
        else BODY in item.fields && item.fields[BODY].Str?)
  }

  function TextOf(item: Json): string {
    if Get(item, TEXT).Str? then Get(item, TEXT).s else if Get(item, BODY).Str? then Get(item, BODY).s else ""
  }

  /** The blocks that are listed: the text blocks in order, the first hundred of them, none longer than 20000 characters. */
  lemma BlocksAreListedInOrder(render: Render, raw: seq<Json>) returns (at: seq<nat>)
    ensures Increasing(at) && forall i :: 0 <= i < |raw| ==> (i in at <==> IsTextBlock(raw[i]))
    ensures forall k :: 0 <= k < |at| ==> at[k] < |raw|
    ensures var blocks := ListedBlocks(render, raw);
      |blocks| == Min(|at|, 100) && forall k :: 0 <= k < |blocks| ==>
        && blocks[k].id == IdOf(render, Get(raw[at[k]], ID), "block-" + Decimal(at[k] + 1))
        && blocks[k].text <= TextOf(raw[at[k]]) && |blocks[k].text| == Min(20000, |TextOf(raw[at[k]])|)
  {
    hide IdOf, Decimal;
    at := CollectInOrder(BlocksOf(render, raw), |raw|);
    forall k | 0 <= k < |at| ensures IsTextBlock(raw[at[k]]) {
      assert at[k] in at;
    }
  }

  /** With listed blocks those are read; otherwise the body as one block, else the text, else nothing. */
  lemma ContentIsRead(render: Render, content: Json)
    ensures var blocks := Normalized(render, content);
      var listed := ListedBlocks(render, Items(Get(content, BLOCKS)));
      if !content.Obj? then blocks == []
      else if listed != [] then blocks == listed
      else if BODY in content.fields && content.fields[BODY].Str? && Strip(content.fields[BODY].s) != ""
      then blocks == [Block("legacy-body", Strip(content.fields[BODY].s))]
      else if TEXT in content.fields && content.fields[TEXT].Str? && Strip(content.fields[TEXT].s) != ""
      then blocks == [Block("legacy-body", Strip(content.fields[TEXT].s))]
      else blocks == []
  {
    hide ListedBlocks, Strip;
  }

  /** No step has more than a hundred blocks, and content without any of the three fields has none. */
  lemma BlockCountIsBounded(render: Render, content: Json)
    ensures BlockCount(render, content) <= MAX_CONTENT_BLOCKS
    ensures !Has(content, BLOCKS) && !Has(content, BODY) && !Has(content, TEXT) ==> BlockCount(render, content) == 0
  {
  }
}
