/**
 * The popup's filter and sort pipeline over the discovered images: keep the
 * images that are large enough and have an allowed extension, then sort a copy
 * by area, width, height or file name, ascending or descending.
 */
module ImageFilter {
  import opened Strings
  import opened ImageTypes
  import opened NaturalOrder

  datatype SortKey = Area | Width | Height | Filename
  datatype SortOrder = Asc | Desc

  /** Minimum size and the set of lower-case extensions; `other` stands for "no extension". */
  datatype ImageFilters = ImageFilters(minWidth: int, minHeight: int, extensions: set<string>)

  datatype ImageSortOption = ImageSortOption(key: SortKey, order: SortOrder)

  /**
   * The name the extension is read from: the file name up to its first `?`,
   * or, when that is empty, the last `/` segment of the URL.
   */
  function BaseName(image: ImageInfo): (r: string)
    ensures |BeforeFirst(image.filename, '?')| > 0 ==> r == BeforeFirst(image.filename, '?')
    ensures |BeforeFirst(image.filename, '?')| == 0 ==> r == AfterLast(image.src, '/')
    ensures '/' !in r || r == BeforeFirst(image.filename, '?')
  {
    var fromFilename := BeforeFirst(image.filename, '?');
    if |fromFilename| > 0 then fromFilename else AfterLast(image.src, '/')
  }

  /**
   * The lower-cased text after the last `.` of the base name, or "" when the
   * base name has no `.`.
   */
  function GetExtension(image: ImageInfo): (r: string)
    ensures '.' !in BaseName(image) ==> r == ""
    ensures '.' in BaseName(image) ==> r == ToLower(AfterLast(BaseName(image), '.'))
    ensures '.' !in r
    ensures NoUpper(r)
  {
    ExtensionOf(BaseName(image))
  }

  /** The extension of a base name: its lower-cased text after the last `.`, or "". */
  function ExtensionOf(fname: string): (r: string)
    ensures '.' !in fname ==> r == ""
    ensures '.' in fname ==> r == ToLower(AfterLast(fname, '.'))
    ensures '.' !in r
    ensures NoUpper(r)
  {
    var dotIdx := LastIndexOf(fname, '.');
    if dotIdx == -1 then ""
    else
      LowerExtension(fname);
      ToLower(fname[dotIdx + 1..])
  }

  /** The text after the last `.` is the last `split('.')` piece, and lower-casing it adds no `.`. */
  lemma LowerExtension(fname: string)
    requires '.' in fname
    ensures ToLower(fname[LastIndexOf(fname, '.') + 1..]) == ToLower(AfterLast(fname, '.'))
    ensures '.' !in ToLower(AfterLast(fname, '.'))
  {
    AfterLastIndexOf(fname, '.');
    ToLowerKeepsAbsent(AfterLast(fname, '.'), '.');
  }

  /**
   * A file name without `?` whose last `.` is followed by `ext` has extension
   * `ext` lower-cased, whatever the URL; one without `.` has none.
   */
  lemma GetExtensionOfFilename(image: ImageInfo, stem: string, ext: string)
    requires image.filename == stem + "." + ext
    requires '?' !in image.filename && '.' !in ext
    ensures GetExtension(image) == ToLower(ext)
  {
    BeforeFirstAbsent(image.filename, '?');
    AfterLastJoin(stem, ext, '.');
    assert image.filename[|stem|] == '.';
  }

  lemma GetExtensionNoDot(image: ImageInfo)
    requires |image.filename| > 0 && '?' !in image.filename && '.' !in image.filename
    ensures GetExtension(image) == ""
  {
    BeforeFirstAbsent(image.filename, '?');
  }

  predicate MeetsSize(image: ImageInfo, filters: ImageFilters) {
    image.width >= filters.minWidth && image.height >= filters.minHeight
  }

  /** An empty set allows everything; `other` admits the images without an extension. */
  predicate ExtensionAllowed(ext: string, extensions: set<string>) {
    |extensions| == 0 || ext in extensions || (ext == "" && "other" in extensions)
  }

  /** The test `filterImages` applies to each image. */
  predicate Keep(image: ImageInfo, filters: ImageFilters) {
    MeetsSize(image, filters) && ExtensionAllowed(GetExtension(image), filters.extensions)
  }

  /**
   * An image named `stem.ext` (no `?`, no `.` in `ext`) passes exactly when it is
   * large enough and the set is empty, holds `ext` lower-cased, or holds `other`
   * while `ext` is empty.
   */
  lemma KeepByFilename(image: ImageInfo, filters: ImageFilters, stem: string, ext: string)
    requires image.filename == stem + "." + ext
    requires '?' !in image.filename && '.' !in ext
    ensures Keep(image, filters) <==>
      MeetsSize(image, filters)
      && (|filters.extensions| == 0 || ToLower(ext) in filters.extensions
          || (|ext| == 0 && "other" in filters.extensions))
  {
    GetExtensionOfFilename(image, stem, ext);
  }

  /**
   * An image whose file name has no `.` and no `?` passes exactly when it is
   * large enough and the set is empty or holds `other` (or the empty string).
   */
  lemma KeepWithoutExtension(image: ImageInfo, filters: ImageFilters)
    requires |image.filename| > 0 && '?' !in image.filename && '.' !in image.filename
    ensures Keep(image, filters) <==>
      MeetsSize(image, filters)
      && (|filters.extensions| == 0 || "" in filters.extensions || "other" in filters.extensions)
  {
    GetExtensionNoDot(image);
  }

  /** `a` is `b` with some elements left out, the rest in their original order. */
  ghost predicate IsSubsequence<T>(a: seq<T>, b: seq<T>)
    decreases |b|
  {
    |a| == 0 || (|b| > 0 && ((a[0] == b[0] && IsSubsequence(a[1..], b[1..])) || IsSubsequence(a, b[1..])))
  }

  /**
   * `images.filter(...)`: the images that pass, in their original order. Every
   * image that passes is kept as often as it occurs, and nothing else is.
   */
  function FilterImages(images: seq<ImageInfo>, filters: ImageFilters): (r: seq<ImageInfo>)
    ensures IsSubsequence(r, images)
    ensures forall x :: x in r ==> Keep(x, filters)
    ensures forall x :: multiset(r)[x] == if Keep(x, filters) then multiset(images)[x] else 0
  {
    if |images| == 0 then []
    else
      var rest := FilterImages(images[1..], filters);
      assert images == [images[0]] + images[1..];
      if Keep(images[0], filters) then [images[0]] + rest else rest
  }

  /** `order === 'asc' ? 1 : -1`. */
  function Factor(order: SortOrder): int {
    if order == Asc then 1 else -1
  }

  /** The number a numeric sort key compares: `width * height`, `width` or `height`. */
  function KeyValue(image: ImageInfo, key: SortKey): int
    requires key != Filename
  {
    match key
    case Area => image.width * image.height
    case Width => image.width
    case Height => image.height
  }

  /** The comparator `sortImages` passes to `Array.prototype.sort`. */
  function Compare(a: ImageInfo, b: ImageInfo, option: ImageSortOption): int {
    var factor := Factor(option.order);
    if option.key == Filename then factor * NaturalCompare(a.filename, b.filename)
    else
      var va, vb := KeyValue(a, option.key), KeyValue(b, option.key);
      if va == vb then factor * NaturalCompare(a.filename, b.filename) else factor * (va - vb)
  }

  /** Swapping the images negates the comparator. */
  lemma CompareAntisymmetric(a: ImageInfo, b: ImageInfo, option: ImageSortOption)
    ensures Compare(b, a, option) == -Compare(a, b, option)
  {
    NaturalCompareAntisymmetric(a.filename, b.filename);
  }

  /**
   * What the comparator's sign means: for a numeric key with different values,
   * negative exactly when the first value is smaller (ascending) or larger
   * (descending), and never zero; for equal values and for the file-name key,
   * the natural file-name comparison's sign, reversed for descending.
   */
  lemma CompareSign(a: ImageInfo, b: ImageInfo, option: ImageSortOption)
    ensures option.key != Filename && KeyValue(a, option.key) != KeyValue(b, option.key) ==>
      Compare(a, b, option) != 0
      && (Compare(a, b, option) < 0 <==>
          if option.order == Asc then KeyValue(a, option.key) < KeyValue(b, option.key)
          else KeyValue(a, option.key) > KeyValue(b, option.key))
    ensures option.key == Filename || KeyValue(a, option.key) == KeyValue(b, option.key) ==>
      (Compare(a, b, option) == 0 <==> NaturalCompare(a.filename, b.filename) == 0)
      && (Compare(a, b, option) < 0 <==>
          if option.order == Asc then NaturalCompare(a.filename, b.filename) < 0
          else NaturalCompare(a.filename, b.filename) > 0)
  {
  }

  /** No neighbour in `s` is out of order for the comparator. */
  ghost predicate SortedBy(s: seq<ImageInfo>, option: ImageSortOption) {
    forall i :: 0 <= i < |s| - 1 ==> Compare(s[i], s[i + 1], option) <= 0
  }

  lemma SortedTail(s: seq<ImageInfo>, option: ImageSortOption)
    requires |s| > 0 && SortedBy(s, option)
    ensures SortedBy(s[1..], option)
  {
    var t := s[1..];
    forall i | 0 <= i < |t| - 1 ensures Compare(t[i], t[i + 1], option) <= 0 {
      assert t[i] == s[i + 1] && t[i + 1] == s[i + 2];
    }
  }

  lemma SortedCons(h: ImageInfo, t: seq<ImageInfo>, option: ImageSortOption)
    requires SortedBy(t, option) && (|t| > 0 ==> Compare(h, t[0], option) <= 0)
    ensures SortedBy([h] + t, option)
  {
    var s := [h] + t;
    forall i | 0 <= i < |s| - 1 ensures Compare(s[i], s[i + 1], option) <= 0 {
      if i > 0 {
        assert s[i] == t[i - 1] && s[i + 1] == t[i];
      }
    }
  }

  /** Inserts `x` before the first element it does not sort after. */
  function Insert(x: ImageInfo, s: seq<ImageInfo>, option: ImageSortOption): (r: seq<ImageInfo>)
    requires SortedBy(s, option)
    ensures SortedBy(r, option)
    ensures multiset(r) == multiset(s) + multiset{x}
    ensures r[0] == x || (|s| > 0 && r[0] == s[0])
  {
    if |s| == 0 || Compare(x, s[0], option) <= 0 then
      SortedCons(x, s, option);
      [x] + s
    else
      CompareAntisymmetric(x, s[0], option);
      SortedTail(s, option);
      var tail := Insert(x, s[1..], option);
      SortedCons(s[0], tail, option);
      assert s == [s[0]] + s[1..];
      [s[0]] + tail
  }

  /**
   * `[...images].sort(cmp)`: a sorted copy. The input sequence is a value and
   * is not changed; the result holds the same images, none in reverse order of
   * its neighbour. Which of two images that compare equal comes first is not
   * stated.
   */
  function SortImages(images: seq<ImageInfo>, option: ImageSortOption): (r: seq<ImageInfo>)
    ensures multiset(r) == multiset(images)
    ensures SortedBy(r, option)
  {
    if |images| == 0 then []
    else
      assert images == [images[0]] + images[1..];
      Insert(images[0], SortImages(images[1..], option), option)
  }

  /** Filtering followed by sorting. */
  function GetFilteredSortedImages(images: seq<ImageInfo>, filters: ImageFilters, option: ImageSortOption): (r: seq<ImageInfo>)
    ensures SortedBy(r, option)
    ensures forall x :: x in r ==> Keep(x, filters)
    ensures forall x :: multiset(r)[x] == if Keep(x, filters) then multiset(images)[x] else 0
    ensures r == SortImages(FilterImages(images, filters), option)
  {
    var filtered := FilterImages(images, filters);
    var r := SortImages(filtered, option);
    assert forall x :: x in r ==> x in multiset(filtered);
    r
  }

  /**
   * For a numeric key the sorted images are in non-decreasing order of that
   * value when ascending and non-increasing when descending.
   */
  lemma {:induction false} SortedKeysMonotone(s: seq<ImageInfo>, option: ImageSortOption)
    requires option.key != Filename && SortedBy(s, option)
    ensures forall i, j :: 0 <= i < j < |s| && option.order == Asc ==> KeyValue(s[i], option.key) <= KeyValue(s[j], option.key)
    ensures forall i, j :: 0 <= i < j < |s| && option.order == Desc ==> KeyValue(s[i], option.key) >= KeyValue(s[j], option.key)
  {
    if |s| > 1 {
      var t := s[1..];
      SortedTail(s, option);
      SortedKeysMonotone(t, option);
      assert Compare(s[0], s[1], option) <= 0;
      forall i, j | 0 <= i < j < |s|
        ensures option.order == Asc ==> KeyValue(s[i], option.key) <= KeyValue(s[j], option.key)
        ensures option.order == Desc ==> KeyValue(s[i], option.key) >= KeyValue(s[j], option.key)
      {
        if i == 0 && j > 1 {
          assert s[1] == t[0] && s[j] == t[j - 1];
        } else if i > 0 {
          assert s[i] == t[i - 1] && s[j] == t[j - 1];
        }
      }
    }
  }

  /** Neighbours with equal key values, or any neighbours for the file-name key, are in natural file-name order times the factor. */
  lemma SortedTies(r: seq<ImageInfo>, option: ImageSortOption)
    requires SortedBy(r, option)
    ensures forall i :: 0 <= i < |r| - 1 && (option.key == Filename || KeyValue(r[i], option.key) == KeyValue(r[i + 1], option.key)) ==>
      Factor(option.order) * NaturalCompare(r[i].filename, r[i + 1].filename) <= 0
  {
    forall i | 0 <= i < |r| - 1 && (option.key == Filename || KeyValue(r[i], option.key) == KeyValue(r[i + 1], option.key))
      ensures Factor(option.order) * NaturalCompare(r[i].filename, r[i + 1].filename) <= 0
    {
      assert Compare(r[i], r[i + 1], option) <= 0;
    }
  }

  /**
   * What `sortImages` promises about its result: the same images; for a numeric
   * key, ordered by that value (reversed for descending); and neighbours with
   * equal values, or any neighbours when sorting by file name, in natural file
   * name order multiplied by the same factor.
   */
  lemma SortImagesOrdered(images: seq<ImageInfo>, option: ImageSortOption)
    ensures multiset(SortImages(images, option)) == multiset(images)
    ensures var r := SortImages(images, option);
      option.key != Filename ==>
        forall i, j :: 0 <= i < j < |r| ==>
          if option.order == Asc then KeyValue(r[i], option.key) <= KeyValue(r[j], option.key)
          else KeyValue(r[i], option.key) >= KeyValue(r[j], option.key)
    ensures var r := SortImages(images, option);
      forall i :: 0 <= i < |r| - 1 && (option.key == Filename || KeyValue(r[i], option.key) == KeyValue(r[i + 1], option.key)) ==>
        Factor(option.order) * NaturalCompare(r[i].filename, r[i + 1].filename) <= 0
  {
    var r := SortImages(images, option);
    if option.key != Filename {
      SortedKeysMonotone(r, option);
    }
    SortedTies(r, option);
  }
}
