/** The page arithmetic shared by the notice and complaint listings
    (backend/controllers/noticeController.js, backend/controllers/complaintController.js):
    `skip = (page - 1) * limit` and `pages = Math.ceil(total / limit)`. */
module Pagination {
  import opened Common

  /** `(page - 1) * limit`. */
  function Skip(page: int, limit: int): (s: int)
    ensures page == 1 ==> s == 0
    ensures page >= 1 && limit >= 0 ==> s >= 0
    ensures limit > 0 && page < 1 ==> s < 0
  {
    (page - 1) * limit
  }

  /** `Math.ceil(total / limit)`; a zero limit gives no number. */
  function PageCount(total: nat, limit: int): (p: Option<int>)
    ensures p.Some? <==> limit != 0
    ensures limit > 0 ==> p.value >= 0 && (p.value - 1) * limit < total + (if total == 0 then limit else 0) && total <= p.value * limit
    ensures limit > 0 ==> (p.value == 0 <==> total == 0)
  {
    if limit > 0 then Some((total + limit - 1) / limit)
    else if limit < 0 then Some(-(total / -limit))
    else None
  }

  /** With a positive limit, every one of the `total` results lies on
      exactly one page from 1 to the page count. */
  lemma PagesCoverResults(total: nat, limit: int, i: nat)
    requires limit > 0 && i < total
    ensures var k := i / limit + 1;
      1 <= k <= PageCount(total, limit).value && Skip(k, limit) <= i < Skip(k, limit) + limit
    ensures forall k :: Skip(k, limit) <= i < Skip(k, limit) + limit ==> k == i / limit + 1
  {
    var k := i / limit + 1;
    assert Skip(k, limit) == (i / limit) * limit;
    forall k' | Skip(k', limit) <= i < Skip(k', limit) + limit ensures k' == k {
      DivisionUnique(i, limit, k' - 1);
    }
  }

  lemma MulMonotone(a: int, b: int, c: int)
    requires a <= b && c >= 0
    ensures a * c <= b * c
  {
    assert b * c - a * c == (b - a) * c;
  }

  /** The quotient is the one multiple-of-`d` interval that holds `i`. */
  lemma DivisionUnique(i: int, d: int, a: int)
    requires d > 0 && a * d <= i < a * d + d
    ensures i / d == a
  {
    var q := i / d;
    assert q * d <= i < q * d + d;
    if a < q {
      MulMonotone(a + 1, q, d);
    } else if q < a {
      MulMonotone(q + 1, a, d);
    }
  }
}
