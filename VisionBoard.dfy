/** The vision board: an ordered list of image and quote cards. */
module VisionBoard {
  import opened Wrappers
  import opened Seqs

  datatype Kind = Image | Quote

  datatype VisionItem = VisionItem(id: string, kind: Kind, content: string, caption: Option<string>)

  /**
   * Adding a card: ignored when the content is empty, otherwise one card
   * without a caption is appended at the end.
   */
  function AddVision(items: seq<VisionItem>, id: string, kind: Kind, content: string): (r: seq<VisionItem>)
    ensures content == "" ==> r == items
    ensures content != "" ==> |r| == |items| + 1 && r[..|items|] == items
    ensures content != "" ==> r[|items|] == VisionItem(id, kind, content, None)
  {
    if content != "" then items + [VisionItem(id, kind, content, None)] else items
  }

  /** Deleting a card: exactly the cards with that id go, the rest keep their order. */
  function DeleteVision(items: seq<VisionItem>, id: string): (r: seq<VisionItem>)
    ensures forall v :: v in r <==> v in items && v.id != id
    ensures forall v :: multiset(r)[v] == if v.id == id then 0 else multiset(items)[v]
    ensures IsSubsequence(r, items)
  {
    var keep := (v: VisionItem) => v.id != id;
    FilterSpec(items, keep);
    Filter(items, keep)
  }

  /** Deleting a card just added under an id no other card has gives back the board before. */
  lemma DeleteUndoesAdd(items: seq<VisionItem>, id: string, kind: Kind, content: string)
    requires forall v :: v in items ==> v.id != id
    ensures DeleteVision(AddVision(items, id, kind, content), id) == items
  {
    var keep := (v: VisionItem) => v.id != id;
    forall i | 0 <= i < |items|
      ensures keep(items[i])
    {
      assert items[i] in items;
    }
    if content == "" {
      FilterKeepsAll(items, keep);
    } else {
      FilterUndoesAppend(items, VisionItem(id, kind, content, None), keep);
    }
  }
}
