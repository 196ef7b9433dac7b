/**
 * The page side of the builder: the document whose head receives the
 * `dynamic-keyframes` style element, the preview box whose inline
 * `animation` property is restarted, and the output area showing the
 * stylesheet. `ensureStyleTag` creates the style element once and reuses it;
 * `applyAnimation` rewrites all three from the current controls.
 */
module Preview {
  import opened Wrappers
  import opened SettingsReader
  import opened CssBuilder

  const StyleTagId: string := "dynamic-keyframes"

  /**
   * A DOM element, with the attributes this page reads and writes. The page
   * gives an element its id right after creating it and before inserting it,
   * and never changes it afterwards, so the id is fixed at creation here.
   */
  class Element {
    const tagName: string
    const id: string
    var textContent: string

    /** `document.createElement(tagName)` followed by setting its `id`. */
    constructor (tagName: string, id: string)
      ensures this.tagName == tagName && this.id == id && textContent == ""
    {
      this.tagName := tagName;
      this.id := id;
      textContent := "";
    }
  }

  /** The position of the first element carrying `id`, or |elements| when none does. */
  function IndexOfId(elements: seq<Element>, id: string): (k: nat)
    ensures k <= |elements|
    ensures forall i :: 0 <= i < k ==> elements[i].id != id
    ensures k < |elements| ==> elements[k].id == id
  {
    if elements == [] then 0
    else if elements[0].id == id then 0
    else 1 + IndexOfId(elements[1..], id)
  }

  /** How many of the elements carry `id`. */
  function CountId(elements: seq<Element>, id: string): nat
  {
    if elements == [] then 0
    else (if elements[0].id == id then 1 else 0) + CountId(elements[1..], id)
  }

  class Document {
    var head: seq<Element>
    var body: seq<Element>

    /** Every element, in document order: the head's, then the body's. */
    function Elements(): seq<Element>
      reads this
    {
      head + body
    }

    /** `document.getElementById(id)`: the first element in document order carrying the id. */
    function Lookup(id: string): (r: Option<Element>)
      reads this
      ensures r.None? <==> forall i :: 0 <= i < |Elements()| ==> Elements()[i].id != id
      ensures r.Some? ==> r.value in Elements() && r.value.id == id
    {
      var k := IndexOfId(Elements(), id);
      if k < |Elements()| then Some(Elements()[k]) else None
    }

    /**
     * `ensureStyleTag()`: the style element with id `dynamic-keyframes`,
     * created and appended to the head only when the document has none.
     * Either way the document then has exactly one more such element than
     * before if it had none, and no more otherwise.
     */
    method EnsureStyleTag() returns (tag: Element)
      modifies this
      ensures body == old(body)
      ensures Lookup(StyleTagId) == Some(tag)
      ensures old(Lookup(StyleTagId)).Some? ==> tag == old(Lookup(StyleTagId)).value && head == old(head)
      ensures old(Lookup(StyleTagId)).None? ==>
        fresh(tag) && tag.tagName == "style" && tag.textContent == "" && head == old(head) + [tag]
      ensures CountId(Elements(), StyleTagId) == if old(CountId(Elements(), StyleTagId)) == 0 then 1 else old(CountId(Elements(), StyleTagId))
    {
      var found := Lookup(StyleTagId);
      if found.Some? {
        tag := found.value;
        FoundCounted(Elements(), StyleTagId, IndexOfId(Elements(), StyleTagId));
      } else {
        NoneCounted(Elements(), StyleTagId);
        assert forall i :: 0 <= i < |head| ==> head[i].id != StyleTagId by {
          assert forall i :: 0 <= i < |head| ==> head[i] == Elements()[i];
        }
        tag := new Element("style", StyleTagId);
        head := head + [tag];
        assert Elements() == old(head) + [tag] + body;
        FirstAfterNone(old(head), tag, body, StyleTagId);
        CountAppend(old(head) + [tag], body, StyleTagId);
        CountAppend(old(head), [tag], StyleTagId);
        CountAppend(old(head), body, StyleTagId);
      }
    }
  }

  /**
   * The keyframes write of `applyAnimation`: the style element's text is
   * replaced by `text`, and no other element's text changes.
   */
  method WriteKeyframes(doc: Document, text: string)
    modifies doc, doc.Elements()
    ensures doc.body == old(doc.body)
    ensures doc.Lookup(StyleTagId).Some? && doc.Lookup(StyleTagId).value.textContent == text
    ensures old(doc.Lookup(StyleTagId)).Some? ==> doc.head == old(doc.head)
    ensures old(doc.Lookup(StyleTagId)).None? ==>
      var tag := doc.Lookup(StyleTagId).value;
      fresh(tag) && tag.tagName == "style" && doc.head == old(doc.head) + [tag]
    ensures CountId(doc.Elements(), StyleTagId) == if old(CountId(doc.Elements(), StyleTagId)) == 0 then 1 else old(CountId(doc.Elements(), StyleTagId))
    ensures forall e :: e in old(doc.Elements()) && Some(e) != doc.Lookup(StyleTagId) ==> e.textContent == old(e.textContent)
  {
    var tag := doc.EnsureStyleTag();
    tag.textContent := text;
  }

  datatype BoxEvent = AnimationSet(value: string) | LayoutRead

  /** The preview box: its inline `animation` property and its layout width. */
  class PreviewBox {
    var animation: string
    var width: int
    /** Every write of the `animation` property and every layout read, in order. */
    ghost var log: seq<BoxEvent>

    /** `box.style.animation = value`. */
    method SetAnimation(value: string)
      modifies this
      ensures animation == value && width == old(width)
      ensures log == old(log) + [AnimationSet(value)]
    {
      animation := value;
      log := log + [AnimationSet(value)];
    }

    /** `box.offsetWidth`, which forces the browser to lay the page out. */
    method OffsetWidth() returns (w: int)
      modifies this
      ensures w == width && animation == old(animation) && width == old(width)
      ensures log == old(log) + [LayoutRead]
    {
      w := width;
      log := log + [LayoutRead];
    }

    /** The restart in `applyAnimation`: `none`, a layout read, then the new shorthand. */
    method Restart(value: string)
      modifies this
      ensures animation == value && width == old(width)
      ensures log == old(log) + [AnimationSet("none"), LayoutRead, AnimationSet(value)]
    {
      SetAnimation("none");
      var _ := OffsetWidth();
      SetAnimation(value);
    }
  }

  /** The output text area. */
  class OutputArea {
    var value: string
  }

  /**
   * The writes of `applyAnimation`: the box's animation is reset to `none`,
   * the layout is read and the shorthand is written; the style element's
   * text is replaced by the keyframes; the output shows the stylesheet.
   */
  method Show(doc: Document, box: PreviewBox, output: OutputArea, shorthand: string, out: CssOutput)
    modifies doc, doc.Elements(), box, output
    ensures box.log == old(box.log) + [AnimationSet("none"), LayoutRead, AnimationSet(shorthand)]
    ensures box.animation == shorthand && box.width == old(box.width)
    ensures output.value == out.css
    ensures doc.Lookup(StyleTagId).Some? && doc.Lookup(StyleTagId).value.textContent == out.keyframes
    ensures doc.body == old(doc.body)
    ensures old(doc.Lookup(StyleTagId)).Some? ==> doc.head == old(doc.head)
    ensures old(doc.Lookup(StyleTagId)).None? ==>
      var tag := doc.Lookup(StyleTagId).value;
      fresh(tag) && tag.tagName == "style" && doc.head == old(doc.head) + [tag]
    ensures CountId(doc.Elements(), StyleTagId) == if old(CountId(doc.Elements(), StyleTagId)) == 0 then 1 else old(CountId(doc.Elements(), StyleTagId))
    ensures forall e :: e in old(doc.Elements()) && Some(e) != doc.Lookup(StyleTagId) ==> e.textContent == old(e.textContent)
  {
    box.Restart(shorthand);
    WriteKeyframes(doc, out.keyframes);
    output.value := out.css;
  }

  /**
   * `applyAnimation()` with the controls' current values: the settings are
   * read, the CSS is built, and the page shows it. The shorthand on the box
   * is the built declaration without its property name.
   */
  method ApplyAnimation(doc: Document, box: PreviewBox, output: OutputArea, c: Controls)
    modifies doc, doc.Elements(), box, output
    ensures box.log == old(box.log) + [AnimationSet("none"), LayoutRead, AnimationSet(Shorthand(GetSettings(c)))]
    ensures BuildCss(GetSettings(c)).animationLine == "animation: " + box.animation + ";"
    ensures box.width == old(box.width)
    ensures output.value == BuildCss(GetSettings(c)).css
    ensures doc.Lookup(StyleTagId).Some? && doc.Lookup(StyleTagId).value.textContent == BuildCss(GetSettings(c)).keyframes
    ensures doc.body == old(doc.body)
    ensures old(doc.Lookup(StyleTagId)).Some? ==> doc.head == old(doc.head)
    ensures old(doc.Lookup(StyleTagId)).None? ==>
      var tag := doc.Lookup(StyleTagId).value;
      fresh(tag) && tag.tagName == "style" && doc.head == old(doc.head) + [tag]
    ensures CountId(doc.Elements(), StyleTagId) == if old(CountId(doc.Elements(), StyleTagId)) == 0 then 1 else old(CountId(doc.Elements(), StyleTagId))
    ensures forall e :: e in old(doc.Elements()) && Some(e) != doc.Lookup(StyleTagId) ==> e.textContent == old(e.textContent)
  {
    var s := GetSettings(c);
    var out := BuildCss(s);
    Show(doc, box, output, Shorthand(s), out);
  }

  /** A second `ensureStyleTag()` returns the element the first one did and leaves the document as it was. */
  method EnsureStyleTagTwice(doc: Document) returns (first: Element, second: Element)
    modifies doc
    ensures first == second
    ensures doc.Lookup(StyleTagId) == Some(first)
    ensures doc.body == old(doc.body)
    ensures doc.head == old(doc.head) + (if old(doc.Lookup(StyleTagId)).None? then [first] else [])
    ensures CountId(doc.Elements(), StyleTagId) >= 1
  {
    first := doc.EnsureStyleTag();
    ghost var head := doc.head;
    second := doc.EnsureStyleTag();
    assert doc.head == head;
  }

  // ---------------------------------------------------------------------------
  // Counting and finding elements

  lemma {:induction false} CountAppend(a: seq<Element>, b: seq<Element>, id: string)
    ensures CountId(a + b, id) == CountId(a, id) + CountId(b, id)
    decreases |a|
  {
    if a == [] {
      assert a + b == b;
    } else {
      assert (a + b)[1..] == a[1..] + b;
      CountAppend(a[1..], b, id);
    }
  }

  lemma {:induction false} NoneCounted(elements: seq<Element>, id: string)
    requires forall i :: 0 <= i < |elements| ==> elements[i].id != id
    ensures CountId(elements, id) == 0
    decreases |elements|
  {
    if elements != [] {
      NoneCounted(elements[1..], id);
    }
  }

  lemma {:induction false} FoundCounted(elements: seq<Element>, id: string, k: nat)
    requires k < |elements| && elements[k].id == id
    ensures CountId(elements, id) >= 1
    decreases k
  {
    if k > 0 {
      FoundCounted(elements[1..], id, k - 1);
    }
  }

  lemma FirstAfterNone(a: seq<Element>, t: Element, b: seq<Element>, id: string)
    requires forall i :: 0 <= i < |a| ==> a[i].id != id
    requires t.id == id
    ensures IndexOfId(a + [t] + b, id) == |a|
  {
    assert (a + [t] + b)[|a|] == t;
  }
}
