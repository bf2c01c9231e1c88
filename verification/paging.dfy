/** `createPageable` of the transaction controller: the `sort` request
    parameter `field[,direction]` turned into a page request, together with
    the validation the paging library applies when the request is built.
 */
module Paging {
  import opened Results
  import opened JavaText

  datatype Direction = Asc | Desc

  /** A page request: page index, page size, and one sort order. */
  datatype Pageable = Pageable(page: int, size: int, field: string, direction: Direction)

  const DefaultPage: int := 0
  const DefaultSize: int := 10
  const DefaultSort: string := "id,desc"

  /** `Sort.by` refuses a property without a non-whitespace character. */
  predicate HasText(s: string) {
    !IsBlank(s)
  }

  /** `createPageable(page, size, sort)`. The first element of `sort` split
      at commas is the field; the direction is ascending only when a second
      element spells `asc` in any case. A `sort` made only of commas has no
      first element and fails; a blank field is refused when the sort is
      built, and a negative page or a size below one when the page request
      is. */
  function CreatePageable(page: int, size: int, sort: string): (r: Result<Pageable>)
    ensures r == Err(InternalError) <==> JavaSplit(sort, ',') == []
    ensures r.Err? ==> r.error in {InternalError, InvalidRequest}
    ensures r.Ok? ==> r.value.page == page && r.value.size == size && page >= 0 && size >= 1
    ensures r.Ok? ==> r.value.field == FirstField(sort, ',') && HasText(r.value.field)
    ensures JavaSplit(sort, ',') != [] ==>
      (r.Ok? <==> page >= 0 && size >= 1 && HasText(FirstField(sort, ',')))
  {
    var parts := JavaSplit(sort, ',');
    if parts == [] then Err(InternalError)
    else
      var field := parts[0];
      var direction := if |parts| > 1 && EqualsIgnoreCase("asc", parts[1]) then Asc else Desc;
      SplitHead(sort, ',');
      if !HasText(field) then Err(InvalidRequest)
      else if page < 0 || size < 1 then Err(InvalidRequest)
      else Ok(Pageable(page, size, field, direction))
  }

  /** The direction is ascending exactly when the text after the first
      comma, up to the next one, spells `asc` ignoring case: trailing empty
      elements dropped by the split never matter. */
  lemma DirectionIsAscIff(page: int, size: int, sort: string)
    requires CreatePageable(page, size, sort).Ok?
    ensures CreatePageable(page, size, sort).value.direction == Asc <==>
      var fs := Fields(sort, ',');
      |fs| > 1 && EqualsIgnoreCase("asc", fs[1])
  {
    var fs := Fields(sort, ',');
    var parts := JavaSplit(sort, ',');
    if |fs| > 1 && EqualsIgnoreCase("asc", fs[1]) {
      SplitSecond(sort, ',', fs[1]);
    }
    if |parts| > 1 && EqualsIgnoreCase("asc", parts[1]) {
      SplitSecond(sort, ',', parts[1]);
    }
  }

  /** A sort written as `field,direction`, with no further comma, yields
      that field, ascending exactly when the direction spells `asc`. */
  lemma {:induction false} FieldAndDirection(page: int, size: int, field: string, dir: string)
    requires page >= 0 && size >= 1
    requires ',' !in field && ',' !in dir && dir != "" && HasText(field)
    ensures CreatePageable(page, size, field + "," + dir)
      == Ok(Pageable(page, size, field, if EqualsIgnoreCase("asc", dir) then Asc else Desc))
  {
    var sort := field + "," + dir;
    FieldsAfterFirst(field, ',', dir);
    FieldsWithoutSeparator(dir, ',');
    assert sort[|field|] == ',';
    assert Fields(sort, ',') == [field, dir];
    assert JavaSplit(sort, ',') == [field, dir];
  }

  /** The default parameters ask for the first ten rows by descending id. */
  lemma DefaultsSortByIdDescending()
    ensures CreatePageable(DefaultPage, DefaultSize, DefaultSort) == Ok(Pageable(0, 10, "id", Desc))
  {
    assert DefaultSort == "id" + "," + "desc";
    assert HasText("id") by { assert !IsJavaWhitespace("id"[0]); }
    assert !EqualsIgnoreCase("asc", "desc");
    FieldAndDirection(0, 10, "id", "desc");
  }

  /** An explicit `asc` in any case sorts ascending. */
  lemma UpperCaseAscSortsAscending()
    ensures CreatePageable(0, 10, "amount,ASC") == Ok(Pageable(0, 10, "amount", Asc))
  {
    assert HasText("amount") by { assert !IsJavaWhitespace("amount"[0]); }
    assert "amount,ASC" == "amount" + "," + "ASC";
    assert EqualsIgnoreCase("asc", "ASC") by {
      assert "ASC"[0] == 'A' && "ASC"[1] == 'S' && "ASC"[2] == 'C';
    }
    FieldAndDirection(0, 10, "amount", "ASC");
  }

  /** An unknown direction word sorts descending. */
  lemma UnknownDirectionSortsDescending()
    ensures CreatePageable(0, 10, "amount,up") == Ok(Pageable(0, 10, "amount", Desc))
  {
    assert HasText("amount") by { assert !IsJavaWhitespace("amount"[0]); }
    assert "amount,up" == "amount" + "," + "up";
    assert !EqualsIgnoreCase("asc", "up");
    FieldAndDirection(0, 10, "amount", "up");
  }

  /** A sort made only of commas fails; so does a negative page. */
  lemma RefusedExamples()
    ensures CreatePageable(0, 10, ",") == Err(InternalError)
    ensures CreatePageable(-1, 10, DefaultSort) == Err(InvalidRequest)
  {
    SplitEmptyIffOnlySeparators(",", ',');
    assert DefaultSort == "id" + "," + "desc";
    assert HasText("id") by { assert !IsJavaWhitespace("id"[0]); }
    FieldAndDirection(0, 10, "id", "desc");
  }
}
