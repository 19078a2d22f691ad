/** The scene graph of an open document: its pages and the elements on them. */
module SceneGraph {

  datatype Kind = Text | Image | Shape | Annotation | FormField

  datatype Bounds = Bounds(x: real, y: real, width: real, height: real)

  /** `content` stands for the fields particular to the kind of element. */
  datatype Element = Element(id: string, kind: Kind, bounds: Bounds, content: string)

  datatype Page = Page(
    id: string,
    number: int,
    width: real,
    height: real,
    rotation: int,
    elements: seq<Element>
  )

  function PageNumbers(n: nat): (numbers: seq<int>)
    ensures |numbers| == n && forall i | 0 <= i < n :: numbers[i] == i + 1
  {
    seq(n, i => i + 1)
  }

  predicate Numbered(pages: seq<Page>) {
    forall i | 0 <= i < |pages| :: pages[i].number == i + 1
  }

  function Renumbered(pages: seq<Page>): (r: seq<Page>)
    ensures |r| == |pages| && forall i | 0 <= i < |pages| :: r[i] == pages[i].(number := i + 1)
  {
    seq(|pages|, i requires 0 <= i < |pages| => pages[i].(number := i + 1))
  }
}
