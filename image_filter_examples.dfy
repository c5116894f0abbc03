/** The file-name sort of the image filter's unit tests, worked through the model. */
module ImageFilterExamples {
  import opened ImageTypes
  import opened NaturalOrder
  import opened ImageFilter

  /** An image of the natural-order test: one pixel, the name also serving as URL. */
  function Target(name: string): ImageInfo {
    ImageInfo(name, "", 1, 1, name)
  }

  /** Names `<digits>.png` compare as their numbers do. */
  lemma PngOrder(d: string, e: string)
    requires IsDigits(d) && IsDigits(e)
    ensures NaturalCompare(d + ".png", e + ".png") == ParseDigits(d) - ParseDigits(e)
  {
    assert d + ".png" == [] + (d + ".png");
    assert e + ".png" == [] + (e + ".png");
    DigitRunsCompareNumerically([], d, e, ".png");
  }

  /** The comparisons the two sorts of the test make, for the names `1.png`, `2.png`, `10.png`, `100.png`. */
  lemma TestComparisons(n1: string, n2: string, n10: string, n100: string)
    requires n1 == "1.png" && n2 == "2.png" && n10 == "10.png" && n100 == "100.png"
    ensures NaturalCompare(n1, n2) < 0 && NaturalCompare(n2, n10) < 0 && NaturalCompare(n10, n100) < 0
    ensures NaturalCompare(n2, n100) < 0 && NaturalCompare(n1, n10) < 0 && NaturalCompare(n1, n100) < 0
  {
    var d1, d2, d10, d100 := "1", "2", "10", "100";
    assert IsDigits(d1) && IsDigits(d2) && IsDigits(d10) && IsDigits(d100);
    assert ParseDigits(d1) == 1 && ParseDigits(d2) == 2;
    assert ParseDigits(d10) == 10 && ParseDigits(d100) == 100;
    assert n1 == d1 + ".png" && n2 == d2 + ".png" && n10 == d10 + ".png" && n100 == d100 + ".png";
    PngOrder(d1, d2);
    PngOrder(d2, d10);
    PngOrder(d10, d100);
    PngOrder(d2, d100);
    PngOrder(d1, d10);
    PngOrder(d1, d100);
  }

  /** Inserting an image that sorts no later than the head of a sorted list puts it in front. */
  lemma InsertFront(x: ImageInfo, s: seq<ImageInfo>, option: ImageSortOption)
    requires SortedBy(s, option) && |s| > 0 && Compare(x, s[0], option) <= 0
    ensures Insert(x, s, option) == [x] + s
  {
  }

  /** Inserting an image that sorts after the head of a sorted list keeps the head first. */
  lemma InsertPast(x: ImageInfo, s: seq<ImageInfo>, option: ImageSortOption)
    requires SortedBy(s, option) && |s| > 0 && Compare(x, s[0], option) > 0
    ensures SortedBy(s[1..], option)
    ensures Insert(x, s, option) == [s[0]] + Insert(x, s[1..], option)
  {
    SortedTail(s, option);
  }

  /** How `SortImages` takes apart the list `a, c, b, d`. */
  lemma SortFourSteps(a: ImageInfo, b: ImageInfo, c: ImageInfo, d: ImageInfo, option: ImageSortOption)
    ensures SortImages([a, c, b, d], option) == Insert(a, SortImages([c, b, d], option), option)
    ensures SortImages([c, b, d], option) == Insert(c, SortImages([b, d], option), option)
    ensures SortImages([b, d], option) == Insert(b, SortImages([d], option), option)
    ensures SortImages([d], option) == [d]
  {
    assert [a, c, b, d][1..] == [c, b, d];
    assert [c, b, d][1..] == [b, d];
    assert [b, d][1..] == [d];
    assert [d][1..] == [];
  }

  /** An image that sorts no later than the one image of a list goes first. */
  lemma InsertBeforeOne(x: ImageInfo, r: ImageInfo, option: ImageSortOption)
    requires Compare(x, r, option) <= 0
    ensures Insert(x, [r], option) == [x, r]
  {
    InsertFront(x, [r], option);
    assert [x] + [r] == [x, r];
  }

  /** An image that sorts no later than the head of a sorted three-image list goes first. */
  lemma InsertBeforeThree(x: ImageInfo, p: ImageInfo, q: ImageInfo, r: ImageInfo, option: ImageSortOption)
    requires SortedBy([p, q, r], option) && Compare(x, p, option) <= 0
    ensures Insert(x, [p, q, r], option) == [x, p, q, r]
  {
    InsertFront(x, [p, q, r], option);
    assert [x] + [p, q, r] == [x, p, q, r];
  }

  /** An image that sorts after the first and no later than the second of a sorted pair goes between them. */
  lemma InsertBetween(x: ImageInfo, q: ImageInfo, r: ImageInfo, option: ImageSortOption)
    requires SortedBy([q, r], option)
    requires Compare(x, q, option) > 0 && Compare(x, r, option) <= 0
    ensures Insert(x, [q, r], option) == [q, x, r]
  {
    InsertPast(x, [q, r], option);
    assert [q, r][1..] == [r];
    InsertBeforeOne(x, r, option);
    assert [q] + [x, r] == [q, x, r];
  }

  /** An image that sorts after the one image of a list goes last. */
  lemma InsertAfterOne(x: ImageInfo, r: ImageInfo, option: ImageSortOption)
    requires Compare(x, r, option) > 0
    ensures Insert(x, [r], option) == [r, x]
  {
    InsertPast(x, [r], option);
    assert [r][1..] == [];
    assert [r] + [x] == [r, x];
  }

  /** An image that sorts after both images of a sorted pair goes last. */
  lemma InsertAfterTwo(x: ImageInfo, q: ImageInfo, r: ImageInfo, option: ImageSortOption)
    requires SortedBy([q, r], option)
    requires Compare(x, q, option) > 0 && Compare(x, r, option) > 0
    ensures Insert(x, [q, r], option) == [q, r, x]
  {
    InsertPast(x, [q, r], option);
    assert [q, r][1..] == [r];
    InsertAfterOne(x, r, option);
    assert [q] + [r, x] == [q, r, x];
  }

  /** An image that sorts after all three images of a sorted list goes last. */
  lemma InsertAfterThree(x: ImageInfo, p: ImageInfo, q: ImageInfo, r: ImageInfo, option: ImageSortOption)
    requires SortedBy([p, q, r], option)
    requires Compare(x, p, option) > 0 && Compare(x, q, option) > 0 && Compare(x, r, option) > 0
    ensures Insert(x, [p, q, r], option) == [p, q, r, x]
  {
    InsertPast(x, [p, q, r], option);
    assert [p, q, r][1..] == [q, r];
    InsertAfterTwo(x, q, r, option);
    assert [p] + [q, r, x] == [p, q, r, x];
  }

  /** The four insertions of a sort of `a, c, b, d` whose order is `a <= b < c <= d`. */
  lemma SortFourAscending(a: ImageInfo, b: ImageInfo, c: ImageInfo, d: ImageInfo, option: ImageSortOption)
    requires Compare(a, b, option) <= 0 && Compare(c, b, option) > 0
    requires Compare(b, d, option) <= 0 && Compare(c, d, option) <= 0
    ensures SortImages([a, c, b, d], option) == [a, b, c, d]
  {
    SortFourSteps(a, b, c, d, option);
    InsertBeforeOne(b, d, option);
    InsertBetween(c, b, d, option);
    InsertBeforeThree(a, b, c, d, option);
  }

  /** The four insertions of a sort of `a, c, b, d` whose order is `d < c <= b < a`. */
  lemma SortFourReversed(a: ImageInfo, b: ImageInfo, c: ImageInfo, d: ImageInfo, option: ImageSortOption)
    requires Compare(b, d, option) > 0 && Compare(c, d, option) > 0 && Compare(c, b, option) <= 0
    requires Compare(a, d, option) > 0 && Compare(a, c, option) > 0 && Compare(a, b, option) > 0
    ensures SortImages([a, c, b, d], option) == [d, c, b, a]
  {
    SortFourSteps(a, b, c, d, option);
    InsertAfterOne(b, d, option);
    InsertBetween(c, d, b, option);
    InsertAfterThree(a, d, c, b, option);
  }

  /** The comparator facts file-name order gives for four names in natural order `a < b < c < d`. */
  lemma ByNameFacts(a: ImageInfo, b: ImageInfo, c: ImageInfo, d: ImageInfo, option: ImageSortOption)
    requires option.key == Filename
    requires NaturalCompare(a.filename, b.filename) < 0 && NaturalCompare(b.filename, c.filename) < 0
    requires NaturalCompare(c.filename, d.filename) < 0 && NaturalCompare(b.filename, d.filename) < 0
    requires NaturalCompare(a.filename, c.filename) < 0 && NaturalCompare(a.filename, d.filename) < 0
    ensures option.order == Asc ==>
      Compare(a, b, option) <= 0 && Compare(c, b, option) > 0 && Compare(b, d, option) <= 0 && Compare(c, d, option) <= 0
    ensures option.order == Desc ==>
      Compare(b, d, option) > 0 && Compare(c, d, option) > 0 && Compare(c, b, option) <= 0
      && Compare(a, d, option) > 0 && Compare(a, c, option) > 0 && Compare(a, b, option) > 0
  {
    CompareAntisymmetric(b, c, option);
  }

  /** Ordered by file name, four images whose names are in natural order `a < b < c < d` and given as `a, c, b, d`. */
  lemma SortFourByName(a: ImageInfo, b: ImageInfo, c: ImageInfo, d: ImageInfo)
    requires NaturalCompare(a.filename, b.filename) < 0 && NaturalCompare(b.filename, c.filename) < 0
    requires NaturalCompare(c.filename, d.filename) < 0 && NaturalCompare(b.filename, d.filename) < 0
    requires NaturalCompare(a.filename, c.filename) < 0 && NaturalCompare(a.filename, d.filename) < 0
    ensures SortImages([a, c, b, d], ImageSortOption(Filename, Asc)) == [a, b, c, d]
    ensures SortImages([a, c, b, d], ImageSortOption(Filename, Desc)) == [d, c, b, a]
  {
    var asc, desc := ImageSortOption(Filename, Asc), ImageSortOption(Filename, Desc);
    ByNameFacts(a, b, c, d, asc);
    SortFourAscending(a, b, c, d, asc);
    ByNameFacts(a, b, c, d, desc);
    SortFourReversed(a, b, c, d, desc);
  }

  /**
   * The images `1.png, 10.png, 2.png, 100.png` sorted by file name come out as
   * `1.png, 2.png, 10.png, 100.png` ascending and exactly the reverse descending.
   */
  lemma FilenameSortExample(n1: string, n2: string, n10: string, n100: string)
    requires n1 == "1.png" && n2 == "2.png" && n10 == "10.png" && n100 == "100.png"
    ensures var t := [Target(n1), Target(n10), Target(n2), Target(n100)];
      SortImages(t, ImageSortOption(Filename, Asc)) == [Target(n1), Target(n2), Target(n10), Target(n100)]
      && SortImages(t, ImageSortOption(Filename, Desc)) == [Target(n100), Target(n10), Target(n2), Target(n1)]
  {
    TestComparisons(n1, n2, n10, n100);
    SortFourByName(Target(n1), Target(n2), Target(n10), Target(n100));
  }
}
