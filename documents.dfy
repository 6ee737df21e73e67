/** The text of a Word document as `replace_all` sees it: top-level
    paragraphs, and tables made of rows of cells, each a plain string. */
module Documents {
  import opened Dicts
  import opened Substitution

  type Row = seq<string>
  type Grid = seq<Row>

  datatype DocText = DocText(paragraphs: seq<string>, tables: seq<Grid>)

  /** Every text of a list with the mapping applied. */
  function RenderTexts(ts: seq<string>, m: Mapping): seq<string>
  {
    seq(|ts|, i requires 0 <= i < |ts| => ReplaceEach(ts[i], m))
  }

  function RenderGrid(g: Grid, m: Mapping): Grid
  {
    seq(|g|, r requires 0 <= r < |g| => RenderTexts(g[r], m))
  }

  /** The document that `replace_all` leaves behind. */
  function Render(d: DocText, m: Mapping): DocText
  {
    DocText(RenderTexts(d.paragraphs, m),
            seq(|d.tables|, t requires 0 <= t < |d.tables| => RenderGrid(d.tables[t], m)))
  }

  /** Same number of paragraphs, tables, rows per table and cells per row. */
  predicate SameShape(d: DocText, e: DocText)
  {
    && |d.paragraphs| == |e.paragraphs|
    && |d.tables| == |e.tables|
    && (forall t :: 0 <= t < |d.tables| ==> |d.tables[t]| == |e.tables[t]|)
    && (forall t, r :: 0 <= t < |d.tables| && 0 <= r < |d.tables[t]| ==>
          |d.tables[t][r]| == |e.tables[t][r]|)
  }

  /** No paragraph and no cell holds the token of a key of the mapping. */
  predicate MentionsNoKeyIn(d: DocText, m: Mapping)
  {
    && (forall i :: 0 <= i < |d.paragraphs| ==> MentionsNoKey(d.paragraphs[i], m))
    && (forall t, r, c :: 0 <= t < |d.tables| && 0 <= r < |d.tables[t]| && 0 <= c < |d.tables[t][r]| ==>
          MentionsNoKey(d.tables[t][r][c], m))
  }

  /** The shape is kept, and each paragraph and each cell becomes `repl_text`
      of its old text. */
  lemma RenderKeepsShape(d: DocText, m: Mapping)
    ensures SameShape(Render(d, m), d)
    ensures forall i :: 0 <= i < |d.paragraphs| ==>
      Render(d, m).paragraphs[i] == ReplaceEach(d.paragraphs[i], m)
    ensures forall t, r, c :: 0 <= t < |d.tables| && 0 <= r < |d.tables[t]| && 0 <= c < |d.tables[t][r]| ==>
      Render(d, m).tables[t][r][c] == ReplaceEach(d.tables[t][r][c], m)
  {
  }

  /** A document mentioning no key comes back unchanged. */
  lemma RenderWithoutTokens(d: DocText, m: Mapping)
    requires MentionsNoKeyIn(d, m)
    ensures Render(d, m) == d
  {
    var e := Render(d, m);
    forall i | 0 <= i < |d.paragraphs| ensures e.paragraphs[i] == d.paragraphs[i] {
      ReplaceEachAbsent(d.paragraphs[i], m);
    }
    assert e.paragraphs == d.paragraphs;
    forall t | 0 <= t < |d.tables| ensures e.tables[t] == d.tables[t] {
      forall r | 0 <= r < |d.tables[t]| ensures e.tables[t][r] == d.tables[t][r] {
        forall c | 0 <= c < |d.tables[t][r]| ensures e.tables[t][r][c] == d.tables[t][r][c] {
          ReplaceEachAbsent(d.tables[t][r][c], m);
        }
      }
    }
    assert e.tables == d.tables;
  }

  /** Rendering with one mapping and then another is rendering once with the
      items of both, in order. */
  lemma RenderTwice(d: DocText, m1: Mapping, m2: Mapping)
    ensures Render(Render(d, m1), m2) == Render(d, m1 + m2)
  {
    var e, f := Render(Render(d, m1), m2), Render(d, m1 + m2);
    forall i | 0 <= i < |d.paragraphs| ensures e.paragraphs[i] == f.paragraphs[i] {
      ReplaceEachAppend(d.paragraphs[i], m1, m2);
    }
    assert e.paragraphs == f.paragraphs;
    forall t | 0 <= t < |d.tables| ensures e.tables[t] == f.tables[t] {
      forall r | 0 <= r < |d.tables[t]| ensures e.tables[t][r] == f.tables[t][r] {
        forall c | 0 <= c < |d.tables[t][r]| ensures e.tables[t][r][c] == f.tables[t][r][c] {
          ReplaceEachAppend(d.tables[t][r][c], m1, m2);
        }
      }
    }
    assert e.tables == f.tables;
  }

  /** A python-docx document opened from a template; its texts are rewritten
      in place. */
  class Document {
    var paragraphs: seq<string>
    var tables: seq<Grid>

    function Text(): DocText
      reads this
    {
      DocText(paragraphs, tables)
    }

    constructor (template: DocText)
      ensures Text() == template
    {
      paragraphs := template.paragraphs;
      tables := template.tables;
    }

    /** The loop over the cells of one row. */
    method ReplaceInRow(t: nat, r: nat, mapping: Mapping)
      requires t < |tables| && r < |tables[t]|
      modifies this
      ensures paragraphs == old(paragraphs)
      ensures tables == old(tables)[t := old(tables)[t][r := RenderTexts(old(tables)[t][r], mapping)]]
    {
      ghost var row := tables[t][r];
      var c := 0;
      while c < |tables[t][r]|
        invariant paragraphs == old(paragraphs)
        invariant |tables| == |old(tables)| && |tables[t]| == |old(tables)[t]|
        invariant forall u :: 0 <= u < |tables| && u != t ==> tables[u] == old(tables)[u]
        invariant forall q :: 0 <= q < |tables[t]| && q != r ==> tables[t][q] == old(tables)[t][q]
        invariant |tables[t][r]| == |row| && 0 <= c <= |row|
        invariant forall i :: 0 <= i < c ==> tables[t][r][i] == ReplaceEach(row[i], mapping)
        invariant forall i :: c <= i < |row| ==> tables[t][r][i] == row[i]
      {
        var text := ReplaceInText(tables[t][r][c], mapping);
        tables := tables[t := tables[t][r := tables[t][r][c := text]]];
        c := c + 1;
      }
      assert tables[t][r] == RenderTexts(row, mapping);
      assert tables[t] == old(tables)[t][r := RenderTexts(row, mapping)];
    }

    /** The loop over the rows of one table. */
    method ReplaceInTable(t: nat, mapping: Mapping)
      requires t < |tables|
      modifies this
      ensures paragraphs == old(paragraphs)
      ensures tables == old(tables)[t := RenderGrid(old(tables)[t], mapping)]
    {
      ghost var grid := tables[t];
      var r := 0;
      while r < |tables[t]|
        invariant paragraphs == old(paragraphs)
        invariant |tables| == |old(tables)|
        invariant forall u :: 0 <= u < |tables| && u != t ==> tables[u] == old(tables)[u]
        invariant |tables[t]| == |grid| && 0 <= r <= |grid|
        invariant forall q :: 0 <= q < r ==> tables[t][q] == RenderTexts(grid[q], mapping)
        invariant forall q :: r <= q < |grid| ==> tables[t][q] == grid[q]
      {
        ReplaceInRow(t, r, mapping);
        r := r + 1;
      }
      assert tables[t] == RenderGrid(grid, mapping);
    }

    /** `replace_all`: every top-level paragraph, then every cell of every row
        of every table, gets `repl_text` of its text. */
    method ReplaceAll(mapping: Mapping)
      modifies this
      ensures Text() == Render(old(Text()), mapping)
    {
      ghost var d := Text();
      var i := 0;
      while i < |paragraphs|
        invariant tables == d.tables
        invariant |paragraphs| == |d.paragraphs| && 0 <= i <= |paragraphs|
        invariant forall j :: 0 <= j < i ==> paragraphs[j] == ReplaceEach(d.paragraphs[j], mapping)
        invariant forall j :: i <= j < |paragraphs| ==> paragraphs[j] == d.paragraphs[j]
      {
        var text := ReplaceInText(paragraphs[i], mapping);
        paragraphs := paragraphs[i := text];
        i := i + 1;
      }
      assert paragraphs == RenderTexts(d.paragraphs, mapping);
      var t := 0;
      while t < |tables|
        invariant paragraphs == RenderTexts(d.paragraphs, mapping)
        invariant |tables| == |d.tables| && 0 <= t <= |tables|
        invariant forall u :: 0 <= u < t ==> tables[u] == RenderGrid(d.tables[u], mapping)
        invariant forall u :: t <= u < |tables| ==> tables[u] == d.tables[u]
      {
        ReplaceInTable(t, mapping);
        t := t + 1;
      }
      assert tables == Render(d, mapping).tables;
    }
  }
}
