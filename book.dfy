/** The catalogue's one record type: a book with a title (the key that
    removal matches on), an author (the key that the author query matches on)
    and a year, all kept as opaque text. */
module BookRecord {

  datatype Book = Book(title: string, author: string, year: string)

  /** The human-readable rendering of a book used by the catalogue listing:
      `Title: <title>, Author: <author>, Year: <year>`. The three fields
      appear in that order, each right after its label. */
  function Display(b: Book): (r: string)
    ensures |r| == |"Title: "| + |b.title| + |", Author: "| + |b.author| + |", Year: "| + |b.year|
    ensures r[..7] == "Title: " && r[7..7 + |b.title|] == b.title
    ensures r[7 + |b.title|..17 + |b.title|] == ", Author: "
    ensures r[17 + |b.title|..17 + |b.title| + |b.author|] == b.author
    ensures r[|r| - |b.year| - 8..|r| - |b.year|] == ", Year: " && r[|r| - |b.year|..] == b.year
  {
    var p1 := "Title: " + b.title;
    var p2 := p1 + ", Author: " + b.author;
    var p3 := p2 + ", Year: ";
    assert (p3 + b.year)[..|p3|] == p3;
    assert p2[..|p1|] == p1 && (p1 + ", Author: ")[..|p1|] == p1;
    p3 + b.year
  }
}
