// Pages of a list, and the callback texts that name a page or a container.
module Pagination {
  import opened Common
  import opened Text

  datatype Page<T> = Page(items: seq<T>, page: int, totalPages: int, totalItems: nat, pageSize: int)

  // The slice of a Python list: bounds beyond the end are cut off.
  function Slice<T>(items: seq<T>, start: nat, end: nat): seq<T>
    requires start <= end
  {
    items[Min(start, |items|)..Min(end, |items|)]
  }

  function Total(count: nat, size: int): int
    requires size >= 1
  {
    Max(1, (count + size - 1) / size)
  }

  // Pages count from one; any requested page is brought into range, no page of a
  // nonempty list is empty, and only the last one may be short.
  function Paginate<T>(items: seq<T>, page: int, pageSize: int): (p: Page<T>)
    ensures p.pageSize == Max(1, pageSize) && p.totalItems == |items|
    ensures 1 <= p.page <= p.totalPages
    ensures page < 1 ==> p.page == 1
    ensures 1 <= page <= p.totalPages ==> p.page == page
    ensures page > p.totalPages ==> p.page == p.totalPages
    ensures items != [] ==> p.items != []
    ensures |p.items| <= p.pageSize
    ensures p.page < p.totalPages ==> |p.items| == p.pageSize
  {
    var size := Max(1, pageSize);
    var total := Total(|items|, size);
    var current := Max(1, Min(page, total));
    var start := (current - 1) * size;
    PageBounds(|items|, size, current);
    Page(Slice(items, start, start + size), current, total, |items|, size)
  }

  function TotalPages<T>(items: seq<T>, pageSize: int): int {
    Paginate(items, 1, pageSize).totalPages
  }

  // The items of pages 1..n, one page after the other.
  function Pages<T>(items: seq<T>, pageSize: int, n: nat): seq<T> {
    if n == 0 then [] else Pages(items, pageSize, n - 1) + Paginate(items, n, pageSize).items
  }

  lemma TotalBounds(count: nat, size: int)
    requires size >= 1
    ensures count > 0 ==> (Total(count, size) - 1) * size < count
    ensures count <= Total(count, size) * size
  {
    var full := (count + size - 1) / size;
    assert count + size - 1 == full * size + (count + size - 1) % size;
  }

  lemma ProductGrows(a: int, b: int, size: int)
    requires a <= b && size >= 0
    ensures a * size <= b * size
  {
  }

  lemma PageBounds(count: nat, size: int, page: int)
    requires size >= 1 && 1 <= page <= Total(count, size)
    ensures 0 <= (page - 1) * size && (page - 1) * size + size == page * size
    ensures count > 0 ==> (page - 1) * size < count
    ensures page < Total(count, size) ==> page * size <= count
  {
    TotalBounds(count, size);
    ProductGrows(0, page - 1, size);
    ProductGrows(page - 1, Total(count, size) - 1, size);
    if page < Total(count, size) { ProductGrows(page, Total(count, size) - 1, size); }
  }

  // The first n pages are the first n * size items, cut off at the end.
  lemma {:induction false} PagesArePrefix<T>(items: seq<T>, pageSize: int, n: nat)
    requires n <= TotalPages(items, pageSize)
    ensures Pages(items, pageSize, n) == items[..Min(n * Max(1, pageSize), |items|)]
  {
    var size := Max(1, pageSize);
    if n > 0 {
      PagesArePrefix(items, pageSize, n - 1);
      PageBounds(|items|, size, n);
      var start := (n - 1) * size;
      assert Paginate(items, n, pageSize).items == Slice(items, start, start + size);
      SliceExtends(items, start, start + size);
    }
  }

  lemma SliceExtends<T>(items: seq<T>, start: nat, end: nat)
    requires start <= end
    ensures items[..Min(start, |items|)] + Slice(items, start, end) == items[..Min(end, |items|)]
  {
  }

  // All pages together are the list, for every page size.
  lemma PagesConcatenate<T>(items: seq<T>, pageSize: int)
    ensures Pages(items, pageSize, TotalPages(items, pageSize)) == items
  {
    PagesArePrefix(items, pageSize, TotalPages(items, pageSize));
    TotalBounds(|items|, Max(1, pageSize));
  }

  function BuildPageData(prefix: string, page: int, user: int): string {
    Join([prefix, IntText(Max(1, page)), IntText(user)], ':')
  }

  function ParsePageData(data: string, prefix: string, script: Script): Option<(int, int)> {
    var parts := Split(data, ':');
    if |parts| != 3 || parts[0] != prefix then None
    else
      var page, user := script.number(parts[1]), script.number(parts[2]);
      if page.None? || user.None? || page.value < 1 then None else Some((page.value, user.value))
  }

  function NormalRef(ref: string, script: Script): string {
    script.lower(Strip(ref, script.blank))
  }

  function BuildFullInfoData(ref: string, user: int, page: Option<int>, prefix: string, script: Script): string {
    if page.None? then Join([prefix, NormalRef(ref, script), IntText(user)], ':')
    else Join([prefix, NormalRef(ref, script), IntText(user), IntText(Max(1, page.value))], ':')
  }

  function ParseFullInfoData(data: string, prefix: string, script: Script): Option<(string, int, Option<int>)> {
    var parts := Split(data, ':');
    if |parts| != 3 && |parts| != 4 then None
    else if parts[0] != prefix then None
    else
      var ref := NormalRef(parts[1], script);
      var user := script.number(parts[2]);
      if ref == "" || user.None? then None
      else if |parts| == 3 then Some((ref, user.value, None))
      else
        var page := script.number(parts[3]);
        if page.None? || page.value < 1 then None else Some((ref, user.value, Some(page.value)))
  }

  // A page text is the prefix, the page, at least one, and the user, with colons between.
  lemma PageDataReads(prefix: string, page: int, user: int)
    ensures BuildPageData(prefix, page, user)
            == prefix + ":" + IntText(if page < 1 then 1 else page) + ":" + IntText(user)
  {
    JoinThree(prefix, IntText(Max(1, page)), IntText(user));
  }

  // The parser takes exactly the texts of this form: the prefix it expects, a page of one or
  // more and a user, with colons between and nowhere else.
  lemma PageDataParses(data: string, prefix: string, script: Script, page: int, user: int)
    ensures ParsePageData(data, prefix, script) == Some((page, user)) <==>
              page >= 1 && ':' !in prefix
              && exists a, b :: ':' !in a && ':' !in b && data == prefix + ":" + a + ":" + b
                                && script.number(a) == Some(page) && script.number(b) == Some(user)
  {
    if ParsePageData(data, prefix, script) == Some((page, user)) {
      var parts := Split(data, ':');
      PiecesArePlain(data, ':');
      JoinSplit(data, ':');
      assert parts == [prefix, parts[1], parts[2]];
      JoinThree(prefix, parts[1], parts[2]);
    }
    if page >= 1 && ':' !in prefix {
      forall a, b | ':' !in a && ':' !in b && data == prefix + ":" + a + ":" + b
                    && script.number(a) == Some(page) && script.number(b) == Some(user)
        ensures ParsePageData(data, prefix, script) == Some((page, user))
      {
        JoinThree(prefix, a, b);
        SplitJoin([prefix, a, b], ':');
      }
    }
  }

  // The same of a container text, with the page or without.
  lemma FullInfoDataReads(ref: string, user: int, page: Option<int>, prefix: string, script: Script)
    ensures var stem := prefix + ":" + script.lower(Strip(ref, script.blank)) + ":" + IntText(user);
            BuildFullInfoData(ref, user, page, prefix, script)
            == if page.None? then stem else stem + ":" + IntText(if page.value < 1 then 1 else page.value)
  {
    JoinThree(prefix, NormalRef(ref, script), IntText(user));
    if page.Some? { JoinFour(prefix, NormalRef(ref, script), IntText(user), IntText(Max(1, page.value))); }
  }

  // What it takes for a container text: the prefix, a reference that is not blank and is
  // normalized, a user, and possibly a page of one or more.
  ghost predicate IsFullInfo(data: string, prefix: string, script: Script, r: string, user: int, page: Option<int>) {
    exists a, b, c ::
      && ':' !in prefix && ':' !in a && ':' !in b && ':' !in c
      && script.lower(Strip(a, script.blank)) == r != "" && script.number(b) == Some(user)
      && if page.None? then data == prefix + ":" + a + ":" + b
         else data == prefix + ":" + a + ":" + b + ":" + c && script.number(c) == page && page.value >= 1
  }

  lemma FullInfoDataParses(data: string, prefix: string, script: Script, r: string, user: int, page: Option<int>)
    ensures ParseFullInfoData(data, prefix, script) == Some((r, user, page)) <==>
              IsFullInfo(data, prefix, script, r, user, page)
  {
    if ParseFullInfoData(data, prefix, script) == Some((r, user, page)) {
      var parts := Split(data, ':');
      PiecesArePlain(data, ':');
      JoinSplit(data, ':');
      if |parts| == 3 {
        assert parts == [prefix, parts[1], parts[2]] && ':' !in "";
        JoinThree(prefix, parts[1], parts[2]);
      } else {
        assert parts == [prefix, parts[1], parts[2], parts[3]];
        JoinFour(prefix, parts[1], parts[2], parts[3]);
      }
    }
    if IsFullInfo(data, prefix, script, r, user, page) {
      var a, b, c :|
        && ':' !in prefix && ':' !in a && ':' !in b && ':' !in c
        && script.lower(Strip(a, script.blank)) == r != "" && script.number(b) == Some(user)
        && if page.None? then data == prefix + ":" + a + ":" + b
           else data == prefix + ":" + a + ":" + b + ":" + c && script.number(c) == page && page.value >= 1;
      JoinThree(prefix, a, b);
      JoinFour(prefix, a, b, c);
      SplitJoin([prefix, a, b], ':');
      SplitJoin([prefix, a, b, c], ':');
    }
  }

  // The parser recovers page and user exactly if the prefix has no separator in it.
  lemma PageDataRoundTrip(prefix: string, page: int, user: int, script: Script)
    requires Sensible(script)
    ensures ParsePageData(BuildPageData(prefix, page, user), prefix, script) == Some((Max(1, page), user))
            <==> ':' !in prefix
  {
    var data := BuildPageData(prefix, page, user);
    if ':' !in prefix {
      IntTextHasNo(Max(1, page), ':');
      IntTextHasNo(user, ':');
      SplitJoin([prefix, IntText(Max(1, page)), IntText(user)], ':');
      assert ReadsBack(script, Max(1, page)) && ReadsBack(script, user);
    } else {
      PiecesArePlain(data, ':');
    }
  }

  // Normalizing twice changes nothing, never adds or removes a separator, and leaves
  // nothing only of a blank reference.
  lemma NormalRefMeans(ref: string, script: Script)
    requires Sensible(script)
    ensures NormalRef(NormalRef(ref, script), script) == NormalRef(ref, script)
    ensures ':' in NormalRef(ref, script) <==> ':' in ref
    ensures NormalRef(ref, script) == "" <==> Strip(ref, script.blank) == ""
  {
    StripMeans(ref, script.blank);
    assert LowersWell(script, Strip(ref, script.blank));
    if NormalRef(ref, script) != "" { StripKeeps(NormalRef(ref, script), script.blank); }
  }

  function Recovered(ref: string, user: int, page: Option<int>, script: Script): (string, int, Option<int>) {
    (NormalRef(ref, script), user, if page.None? then None else Some(Max(1, page.value)))
  }

  lemma FullInfoIsRecovered(ref: string, user: int, page: Option<int>, prefix: string, script: Script)
    requires Sensible(script) && ':' !in prefix && ':' !in ref && NormalRef(ref, script) != ""
    ensures ParseFullInfoData(BuildFullInfoData(ref, user, page, prefix, script), prefix, script)
            == Some(Recovered(ref, user, page, script))
  {
    var normal := NormalRef(ref, script);
    NormalRefMeans(ref, script);
    IntTextHasNo(user, ':');
    assert ReadsBack(script, user);
    if page.None? {
      SplitJoin([prefix, normal, IntText(user)], ':');
    } else {
      var raised := Max(1, page.value);
      IntTextHasNo(raised, ':');
      assert ReadsBack(script, raised);
      SplitJoin([prefix, normal, IntText(user), IntText(raised)], ':');
    }
  }

  // Whatever text is parsed, a result names a plain, normalized, nonempty reference and
  // comes only with a plain prefix.
  lemma ParsedIsPlain(data: string, prefix: string, script: Script)
    requires Sensible(script) && ParseFullInfoData(data, prefix, script).Some?
    ensures var ref := ParseFullInfoData(data, prefix, script).value.0;
            ref != "" && ':' !in ref && NormalRef(ref, script) == ref && ':' !in prefix
  {
    PiecesArePlain(data, ':');
    NormalRefMeans(Split(data, ':')[1], script);
  }

  // The parser recovers the normalized reference, the user and the page raised to at
  // least one, exactly if neither prefix nor reference has a separator in it and the
  // reference is not blank.
  lemma FullInfoDataRoundTrip(ref: string, user: int, page: Option<int>, prefix: string, script: Script)
    requires Sensible(script)
    ensures ParseFullInfoData(BuildFullInfoData(ref, user, page, prefix, script), prefix, script)
            == Some(Recovered(ref, user, page, script))
            <==> ':' !in prefix && ':' !in ref && Strip(ref, script.blank) != ""
  {
    var data := BuildFullInfoData(ref, user, page, prefix, script);
    NormalRefMeans(ref, script);
    if ':' !in prefix && ':' !in ref && NormalRef(ref, script) != "" {
      FullInfoIsRecovered(ref, user, page, prefix, script);
    } else if ParseFullInfoData(data, prefix, script).Some? {
      ParsedIsPlain(data, prefix, script);
    }
  }
}
