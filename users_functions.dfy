/** `createPaginationObject`: the links of one page of the user listing. */
module UsersFunctions {
  import opened Wrappers
  import opened Decimal

  /** The request URL's `origin` and `pathname`. */
  datatype Url = Url(origin: string, pathname: string)

  datatype Link = Link(number: nat, href: string)

  /** `first`, `prev` and `next` are present or left out of the object. */
  datatype Page = Page(self: Link, first: Option<Link>, prev: Option<Link>, next: Option<Link>, last: Link)

  /** `Math.ceil(count / take)`: the number of pages of `take` rows that
      hold `count` rows. */
  function CeilDiv(count: nat, take: nat): (pages: nat)
    requires take > 0
    ensures pages * take >= count
    ensures pages == 0 || (pages - 1) * take < count
  {
    var q := count / take;
    if count % take == 0 then
      q
    else
      assert (q + 1) * take == q * take + take;
      q + 1
  }

  /** The ceiling is the only number of pages that is enough and not one too many. */
  lemma CeilDivUnique(count: nat, take: nat, pages: nat)
    requires take > 0
    requires pages * take >= count && (pages == 0 || (pages - 1) * take < count)
    ensures pages == CeilDiv(count, take)
  {
    var c := CeilDiv(count, take);
    if pages < c {
      MulMonotone(pages, c - 1, take);
    } else if pages > c {
      MulMonotone(c, pages - 1, take);
    }
  }

  lemma MulMonotone(a: nat, b: nat, k: nat)
    requires a <= b
    ensures a * k <= b * k
  {
  }

  /** `${origin}${pathname}?take=${take}&page=${number}`: the listing's own
      address, whose `take` parameter reads back as the page size. */
  function Href(url: Url, take: nat, number: nat): (href: string)
    ensures var base := url.origin + url.pathname + "?take=";
            var size := NatToString(take);
            && |href| > |base| + |size|
            && href[..|base|] == base
            && IsDigits(href[|base|..|base| + |size|])
            && ParseNat(href[|base|..|base| + |size|]) == take
  {
    var base := url.origin + url.pathname + "?take=";
    var size := NatToString(take);
    var href := base + size + "&page=" + NatToString(number);
    ParseNatToString(take);
    assert href[|base|..|base| + |size|] == size;
    href
  }

  function LinkTo(url: Url, take: nat, number: nat): (l: Link)
    ensures l.number == number && l.href == Href(url, take, number)
  {
    Link(number, Href(url, take, number))
  }

  /** The page number a link's href ends with reads back as the link's number. */
  lemma HrefEndsWithNumber(url: Url, take: nat, number: nat)
    ensures var prefix := url.origin + url.pathname + "?take=" + NatToString(take) + "&page=";
            && Href(url, take, number)[..|prefix|] == prefix
            && IsDigits(Href(url, take, number)[|prefix|..])
            && ParseNat(Href(url, take, number)[|prefix|..]) == number
  {
    var prefix := url.origin + url.pathname + "?take=" + NatToString(take) + "&page=";
    assert Href(url, take, number) == prefix + NatToString(number);
    assert Href(url, take, number)[|prefix|..] == NatToString(number);
    ParseNatToString(number);
  }

  /** `take` is at least 25 and `page` at least 1, as the query schema
      validates them. */
  function CreatePaginationObject(url: Url, take: nat, page: nat, count: nat): (p: Page)
    requires take >= 25 && page >= 1
    ensures p.self == LinkTo(url, take, page)
    ensures p.first.Some? <==> page > 1
    ensures p.first.Some? ==> p.first.value == LinkTo(url, take, 1)
    ensures p.prev.Some? <==> page > 1
    ensures p.prev.Some? ==> p.prev.value == LinkTo(url, take, page - 1)
    ensures p.last.number * take >= count
    ensures p.last.number == 0 || (p.last.number - 1) * take < count
    ensures p.last == LinkTo(url, take, p.last.number)
    ensures p.next.Some? <==> p.last.number > 1
    ensures p.next.Some? ==> p.next.value == LinkTo(url, take, page + 1)
  {
    var lastPage := CeilDiv(count, take);
    Page(
      LinkTo(url, take, page),
      if page > 1 then Some(LinkTo(url, take, 1)) else None,
      if page > 1 then Some(LinkTo(url, take, page - 1)) else None,
      if lastPage > 1 then Some(LinkTo(url, take, page + 1)) else None,
      LinkTo(url, take, lastPage))
  }

  /** `next` is offered whenever there is more than one page, on the last
      page too, where it points one past `last`. */
  lemma NextOnLastPage(url: Url, take: nat, count: nat)
    requires take >= 25 && count > take
    ensures var lastPage := CeilDiv(count, take);
            var p := CreatePaginationObject(url, take, lastPage, count);
            p.next.Some? && p.next.value.number == p.last.number + 1
  {
  }
}
