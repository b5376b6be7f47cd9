/**
 * The `GET /crm/leads` endpoint (main.py): each optional query parameter
 * becomes a constraint on one fixed column of the sheet, and the rows are
 * passed through the record filter.
 */
module Leads {
  import opened Wrappers
  import opened Text
  import opened Subsequences
  import opened RowFilter

  /** The filter `get_leads` builds: one entry per query parameter. */
  function LeadFilters(
    domain: Option<string>,
    platform: Option<string>,
    billingType: Option<string>,
    leadType: Option<string>,
    cartRecoveryMode: Option<string>
  ): (filters: FilterSpec)
    ensures filters.Keys == {"Domain", "Platform", "BillingType", "Type", "CartRecoveryMode"}
    ensures filters["Domain"] == domain && filters["Platform"] == platform
    ensures filters["BillingType"] == billingType && filters["Type"] == leadType
    ensures filters["CartRecoveryMode"] == cartRecoveryMode
  {
    map[
      "Domain" := domain,
      "Platform" := platform,
      "BillingType" := billingType,
      "Type" := leadType,
      "CartRecoveryMode" := cartRecoveryMode
    ]
  }

  /** Which query parameter constrains which column, written out one by one. */
  predicate LeadMatches(
    row: Row,
    domain: Option<string>,
    platform: Option<string>,
    billingType: Option<string>,
    leadType: Option<string>,
    cartRecoveryMode: Option<string>
  ) {
    && Satisfies(row, "Domain", domain)
    && Satisfies(row, "Platform", platform)
    && Satisfies(row, "BillingType", billingType)
    && Satisfies(row, "Type", leadType)
    && Satisfies(row, "CartRecoveryMode", cartRecoveryMode)
  }

  /** The map `get_leads` builds constrains exactly the five lead columns. */
  lemma LeadFiltersMeaning(
    row: Row,
    domain: Option<string>,
    platform: Option<string>,
    billingType: Option<string>,
    leadType: Option<string>,
    cartRecoveryMode: Option<string>
  )
    ensures Matches(row, LeadFilters(domain, platform, billingType, leadType, cartRecoveryMode))
        <==> LeadMatches(row, domain, platform, billingType, leadType, cartRecoveryMode)
  {
    var filters := LeadFilters(domain, platform, billingType, leadType, cartRecoveryMode);
    assert filters.Keys == {"Domain", "Platform", "BillingType", "Type", "CartRecoveryMode"};
    if LeadMatches(row, domain, platform, billingType, leadType, cartRecoveryMode) {
      forall key | key in filters
        ensures Satisfies(row, key, filters[key])
      {
        if key == "Domain" {
          assert filters[key] == domain;
        } else if key == "Platform" {
          assert filters[key] == platform;
        } else if key == "BillingType" {
          assert filters[key] == billingType;
        } else if key == "Type" {
          assert filters[key] == leadType;
        } else {
          assert filters[key] == cartRecoveryMode;
        }
      }
    }
    if Matches(row, filters) {
      assert Satisfies(row, "Domain", filters["Domain"]);
      assert Satisfies(row, "Platform", filters["Platform"]);
      assert Satisfies(row, "BillingType", filters["BillingType"]);
      assert Satisfies(row, "Type", filters["Type"]);
      assert Satisfies(row, "CartRecoveryMode", filters["CartRecoveryMode"]);
    }
  }

  /**
   * `get_leads` without its transport wrapping: the rows of the sheet whose
   * lead columns contain the given query values, in sheet order.
   */
  method GetLeads(
    rows: seq<Row>,
    domain: Option<string>,
    platform: Option<string>,
    billingType: Option<string>,
    leadType: Option<string>,
    cartRecoveryMode: Option<string>
  ) returns (data: seq<Row>)
    ensures forall r :: r in data <==>
              r in rows && LeadMatches(r, domain, platform, billingType, leadType, cartRecoveryMode)
    ensures forall r :: multiset(data)[r] ==
              if LeadMatches(r, domain, platform, billingType, leadType, cartRecoveryMode)
              then multiset(rows)[r] else 0
    ensures IsSubsequence(data, rows)
    ensures data == FilterRows(rows, LeadFilters(domain, platform, billingType, leadType, cartRecoveryMode))
    ensures (!Active(domain) && !Active(platform) && !Active(billingType)
             && !Active(leadType) && !Active(cartRecoveryMode)) ==> data == rows
  {
    var filters := LeadFilters(domain, platform, billingType, leadType, cartRecoveryMode);
    data := GetFilteredData(rows, filters);
    LeadsMembership(rows, domain, platform, billingType, leadType, cartRecoveryMode);
    forall r
      ensures multiset(data)[r] ==
              if LeadMatches(r, domain, platform, billingType, leadType, cartRecoveryMode)
              then multiset(rows)[r] else 0
    {
      FilterCounts(rows, filters, r);
      LeadFiltersMeaning(r, domain, platform, billingType, leadType, cartRecoveryMode);
    }
    FilterIsSubsequence(rows, filters);
    if !Active(domain) && !Active(platform) && !Active(billingType)
       && !Active(leadType) && !Active(cartRecoveryMode) {
      LeadsWithoutParameters(rows, domain, platform, billingType, leadType, cartRecoveryMode);
    }
  }

  /** A row is among the leads returned exactly when it is a sheet row passing the five constraints. */
  lemma LeadsMembership(
    rows: seq<Row>,
    domain: Option<string>,
    platform: Option<string>,
    billingType: Option<string>,
    leadType: Option<string>,
    cartRecoveryMode: Option<string>
  )
    ensures forall r :: r in FilterRows(rows, LeadFilters(domain, platform, billingType, leadType, cartRecoveryMode))
              <==> r in rows && LeadMatches(r, domain, platform, billingType, leadType, cartRecoveryMode)
  {
    var filters := LeadFilters(domain, platform, billingType, leadType, cartRecoveryMode);
    var kept := FilterRows(rows, filters);
    forall r
      ensures r in kept <==> r in rows && LeadMatches(r, domain, platform, billingType, leadType, cartRecoveryMode)
    {
      LeadFiltersMeaning(r, domain, platform, billingType, leadType, cartRecoveryMode);
      if r in rows && Matches(r, filters) {
        var i :| 0 <= i < |rows| && rows[i] == r;
      }
    }
  }

  /**
   * A request whose query parameters are all absent or empty returns every
   * row of the sheet, in order.
   */
  lemma LeadsWithoutParameters(
    rows: seq<Row>,
    domain: Option<string>,
    platform: Option<string>,
    billingType: Option<string>,
    leadType: Option<string>,
    cartRecoveryMode: Option<string>
  )
    requires !Active(domain) && !Active(platform) && !Active(billingType)
    requires !Active(leadType) && !Active(cartRecoveryMode)
    ensures FilterRows(rows, LeadFilters(domain, platform, billingType, leadType, cartRecoveryMode)) == rows
  {
    var filters := LeadFilters(domain, platform, billingType, leadType, cartRecoveryMode);
    assert filters.Keys == {"Domain", "Platform", "BillingType", "Type", "CartRecoveryMode"};
    FilterInactiveIsIdentity(rows, filters);
  }

  /** A cell without the letter t, in either case, never contains "tech". */
  lemma NoTechWithoutT(cell: string)
    requires forall j | 0 <= j < |cell| :: cell[j] != 't' && cell[j] != 'T'
    ensures !IsSubstring("tech", Lower(cell))
  {
    var lower := Lower(cell);
    forall i | 0 <= i <= |lower| - 4
      ensures !OccursAt("tech", lower, i)
    {
      assert lower[i] == LowerChar(cell[i]);
      assert lower[i..i + 4][0] == lower[i];
    }
  }

  /** The "Tech" lead passes `domain=tech`. */
  lemma TechLeadMatches(john: Row)
    requires john == map["Name" := "John", "Domain" := "Tech"]
    ensures Matches(john, LeadFilters(Some("tech"), None, None, None, None))
  {
    assert Lower("tech") == "tech" by {
      LowerIdempotent("Tech");
    }
    assert Cell(john, "Domain") == "Tech";
    assert OccursAt("tech", Lower(Cell(john, "Domain")), 0);
    LeadFiltersMeaning(john, Some("tech"), None, None, None, None);
  }

  /** The "Finance" lead fails `domain=tech`. */
  lemma FinanceLeadFails(jane: Row)
    requires jane == map["Name" := "Jane", "Domain" := "Finance"]
    ensures !Matches(jane, LeadFilters(Some("tech"), None, None, None, None))
  {
    assert Lower("tech") == "tech" by {
      LowerIdempotent("Tech");
    }
    assert Cell(jane, "Domain") == "Finance";
    NoTechWithoutT(Cell(jane, "Domain"));
    LeadFiltersMeaning(jane, Some("tech"), None, None, None, None);
  }

  /**
   * Two leads, one in "Tech" and one in "Finance": asking for domain "tech"
   * keeps only the first, whatever the case of the cell.
   */
  lemma DomainExample(john: Row, jane: Row)
    requires john == map["Name" := "John", "Domain" := "Tech"]
    requires jane == map["Name" := "Jane", "Domain" := "Finance"]
    ensures FilterRows([john, jane], LeadFilters(Some("tech"), None, None, None, None)) == [john]
  {
    var filters := LeadFilters(Some("tech"), None, None, None, None);
    TechLeadMatches(john);
    FinanceLeadFails(jane);
    assert [john, jane][1..] == [jane];
    assert [jane][1..] == [];
    assert FilterRows([jane], filters) == [];
  }
}
