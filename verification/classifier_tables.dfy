/**
 The pattern tables of the document-type classifier, as the regular-expression
 source text of each entry, in table order. The classifier's properties hold
 for any tables; these are the ones the application ships.
 */
module ClassifierTables {

  /** `PDF_ONLY`, app.py lines 147-214 (66 patterns). */
  const PdfOnly: seq<string> := [
    "investor[\\s\\-_]*day[\\s\\-_]*presentation",
    "earnings[\\s\\-_]*presentation",
    "supplementary[\\s\\-_]*information",
    "non[\\s\\-_]*gaap[\\s\\-_]*reconciliation",
    "non[\\s\\-_]*ifrs[\\s\\-_]*measures",
    "esg[\\s\\-_]*presentation",
    "sasb[\\s\\-_]*presentation",
    "letter[\\s\\-_]*to[\\s\\-_]*shareholders",
    "roadshow[\\s\\-_]*presentation",
    "agm[\\s\\-_]*presentation",
    "annual[\\s\\-_]*general[\\s\\-_]*meeting[\\s\\-_]*presentation",
    "annual[\\s\\-_]*report",
    "integrated[\\s\\-_]*report",
    "interim[\\s\\-_]*report",
    "quarterly[\\s\\-_]*report",
    "semi[\\s\\-_]*annual[\\s\\-_]*report",
    "management[\\s\\-_]*report",
    "management[\\s\\-_]*commentary",
    "md[\\s\\-_]*&?[\\s\\-_]*a\\b",
    "prox(?:y|ies)",
    "proxy[\\s\\-_]*statement",
    "contractual[\\s\\-_]*agreement",
    "agm[\\s\\-_]*notice",
    "egm[\\s\\-_]*notice",
    "reorgani[sz]ation",
    "restructur",
    "bankruptcy",
    "acquisition",
    "disposal",
    "legal[\\s\\-_]*action",
    "material[\\s\\-_]*change",
    "late[\\s\\-_]*filing",
    "regulatory[\\s\\-_]*correspondence",
    "bond[\\s\\-_]*prospectus",
    "fixed[\\s\\-_]*income[\\s\\-_]*prospectus",
    "debt[\\s\\-_]*prospectus",
    "equity[\\s\\-_]*prospectus",
    "ipo[\\s\\-_]*prospectus",
    "securities[\\s\\-_]*registration",
    "debt[\\s\\-_]*indenture",
    "credit[\\s\\-_]*agreement",
    "notice[\\s\\-_]*of[\\s\\-_]*offering",
    "pre[\\s\\-_]*ipo",
    "institutional[\\s\\-_]*ownership",
    "beneficial[\\s\\-_]*ownership",
    "capital[\\s\\-_]*change",
    "stock[\\s\\-_]*option",
    "tender[\\s\\-_]*offer",
    "exchange[\\s\\-_]*offer",
    "stock[\\s\\-_]*split",
    "securities[\\s\\-_]*purchase",
    "securities[\\s\\-_]*repurchase",
    "securities[\\s\\-_]*sale",
    "merger",
    "takeover",
    "dividend(?![\\s\\-_]*reinvestment[\\s\\-_]*stock)",
    "auditor[\\s\\-_]*report",
    "change[\\s\\-_]*in[\\s\\-_]*auditor",
    "fund[\\s\\-_]*sheet",
    "estma[\\s\\-_]*report",
    "prepared[\\s\\-_]*remark",
    "follow[\\s\\-_]*up[\\s\\-_]*transcript",
    "integrated[\\s\\-_]*resource[\\s\\-_]*plan",
    "scientific[\\s\\-_]*poster",
    "scientific[\\s\\-_]*presentation",
    "research[\\s\\-_]*publication"
  ]

  /** `HTML_ONLY`, app.py lines 216-247 (30 patterns). */
  const HtmlOnly: seq<string> := [
    "/blog(?:s)?/",
    "/insight(?:s)?/",
    "about[\\s\\-_]*us",
    "/about/",
    "company[\\s\\-_]*history",
    "/history/",
    "mission[\\s\\-_]*(?:&|and)?[\\s\\-_]*vision",
    "corporate[\\s\\-_]*information",
    "management[\\s\\-_]*profile",
    "board[\\s\\-_]*of[\\s\\-_]*director",
    "/board/",
    "executive[\\s\\-_]*team",
    "/leadership/",
    "/management/",
    "/executives/",
    "leadership[\\s\\-_]*committee",
    "/suppliers/",
    "/partners/",
    "/customers/",
    "strategic[\\s\\-_]*alliance",
    "product[\\s\\-_]*listing",
    "/products/",
    "feature[\\s\\-_]*description",
    "/features/",
    "service[\\s\\-_]*listing",
    "/services/",
    "service[\\s\\-_]*description",
    "solutions[\\s\\-_]*overview",
    "/solutions/",
    "service[\\s\\-_]*model"
  ]

  /** `BOTH`, app.py lines 249-331 (80 patterns). */
  const BothKeywords: seq<string> := [
    "press[\\s\\-_]*release",
    "news[\\s\\-_]*article",
    "/news/",
    "company[\\s\\-_]*announcement",
    "/announcement",
    "media[\\s\\-_]*center",
    "/media/",
    "newsroom",
    "/newsroom/",
    "operating[\\s\\-_]*metric",
    "profit[\\s\\-_]*(?:&|and)?[\\s\\-_]*loss",
    "shareholding[\\s\\-_]*pattern",
    "corporate[\\s\\-_]*action",
    "sustainab",
    "/sustainability/",
    "corporate[\\s\\-_]*social[\\s\\-_]*responsibility",
    "\\bcsr\\b",
    "environmental[\\s\\-_]*health[\\s\\-_]*safety",
    "carbon[\\s\\-_]*disclosure",
    "green[\\s\\-_]*report",
    "\\btcfd\\b",
    "climate[\\s\\-_]*risk",
    "social[\\s\\-_]*report",
    "human[\\s\\-_]*rights",
    "diversity[\\s\\-_]*(?:&|and)?[\\s\\-_]*inclusion",
    "\\bgri\\b",
    "global[\\s\\-_]*reporting[\\s\\-_]*initiative",
    "\\bcdp\\b",
    "company[\\s\\-_]*polic",
    "/policies/",
    "/policy/",
    "charter",
    "/charter/",
    "guideline",
    "/guidelines/",
    "code[\\s\\-_]*of[\\s\\-_]*ethics",
    "/ethics/",
    "governance[\\s\\-_]*polic",
    "/governance/",
    "corporate[\\s\\-_]*impact",
    "esg[\\s\\-_]*report",
    "white[\\s\\-_]*paper",
    "/whitepaper",
    "case[\\s\\-_]*stud",
    "industry[\\s\\-_]*insight",
    "thought[\\s\\-_]*leadership",
    "fact[\\s\\-_]*sheet",
    "fact[\\s\\-_]*book",
    "product[\\s\\-_]*brochure",
    "one[\\s\\-_]*pager",
    "speech",
    "/speeches/",
    "executive[\\s\\-_]*commentary",
    "industry[\\s\\-_]*trend",
    "leadership[\\s\\-_]*insight",
    "customer[\\s\\-_]*stor",
    "project[\\s\\-_]*update",
    "business[\\s\\-_]*update",
    "activity[\\s\\-_]*report",
    "infographic",
    "results[\\s\\-_]*announcement",
    "earnings[\\s\\-_]*update",
    "revenue[\\s\\-_]*report",
    "sales[\\s\\-_]*report",
    "financial[\\s\\-_]*highlight",
    "funding[\\s\\-_]*announcement",
    "product[\\s\\-_]*launch",
    "product[\\s\\-_]*specification",
    "product[\\s\\-_]*spec",
    "investor[\\s\\-_]*relation",
    "/ir/",
    "/investors/",
    "sec[\\s\\-_]*filing",
    "email[\\s\\-_]*alert",
    "subsidiar",
    "credit[\\s\\-_]*rating",
    "analyst[\\s\\-_]*report",
    "research[\\s\\-_]*report",
    "research[\\s\\-_]*/?[\\s\\-_]*analyst",
    "privacy[\\s\\-_]*notice"
  ]

  /** `OOS_KEYWORDS`, app.py lines 333-373 (39 patterns). */
  const OosKeywords: seq<string> := [
    "privacy[\\s\\-_]*polic",
    "terms[\\s\\-_]*(?:&|and)?[\\s\\-_]*condition",
    "/terms/",
    "/tos/",
    "accessibility[\\s\\-_]*statement",
    "/accessibility/",
    "legal[\\s\\-_]*term",
    "/legal/",
    "clinical[\\s\\-_]*trial",
    "drug[\\s\\-_]*prescription",
    "fda[\\s\\-_]*correspondence",
    "safety[\\s\\-_]*data[\\s\\-_]*sheet",
    "/sds/",
    "recipe",
    "/careers/",
    "/jobs/",
    "job[\\s\\-_]*posting",
    "/career/",
    "/faq[s]?/",
    "/contact/",
    "/forum[s]?/",
    "/chat/",
    "/shop/",
    "/cart/",
    "/checkout/",
    "/login/",
    "/signup/",
    "/register/",
    "/account/",
    "/my[\\s\\-_]*account/",
    "/sitemap",
    "/cookie",
    "/disclaimer",
    "/search",
    "/404",
    "/error",
    "gartner",
    "forrester",
    "\\bidc\\b"
  ]

  /** `OOS_PATHS`, app.py lines 375-382 (25 patterns). */
  const OosPaths: seq<string> := [
    "/career",
    "/jobs",
    "/contact",
    "/faq",
    "/login",
    "/signup",
    "/register",
    "/terms",
    "/legal",
    "/cookie",
    "/accessibility",
    "/sitemap",
    "/search",
    "/404",
    "/error",
    "/shop",
    "/cart",
    "/checkout",
    "/forum",
    "/chat",
    "/account",
    "/clinical[\\-_]*trial",
    "/sds",
    "/disclaimer",
    "/privacy/"
  ]

  /** `PDF_PATHS`, app.py lines 384-389 (13 patterns). */
  const PdfPaths: seq<string> := [
    "/presentation",
    "/investor[\\-_]*day",
    "/annual[\\-_]*report",
    "/interim[\\-_]*report",
    "/quarterly[\\-_]*report",
    "/proxy",
    "/prospectus",
    "/filing",
    "/regulatory",
    "/transcript",
    "/prepared[\\-_]*remarks",
    "/financial[\\-_]*report",
    "/supplemental"
  ]

  /** `HTML_PATHS`, app.py lines 391-395 (14 patterns). */
  const HtmlPaths: seq<string> := [
    "/about",
    "/team",
    "/leadership",
    "/management",
    "/board",
    "/executives",
    "/products",
    "/services",
    "/solutions",
    "/features",
    "/blog",
    "/suppliers",
    "/partners",
    "/customers"
  ]

  /** `BOTH_PATHS`, app.py lines 397-405 (26 patterns). */
  const BothPaths: seq<string> := [
    "/news",
    "/press",
    "/media",
    "/newsroom",
    "/announcement",
    "/sustainability",
    "/esg",
    "/governance",
    "/corporate[\\-_]*impact",
    "/corporate[\\-_]*responsibility",
    "/csr",
    "/investor",
    "/ir/",
    "/events",
    "/case[\\-_]*stud",
    "/whitepaper",
    "/white[\\-_]*paper",
    "/reports",
    "/updates",
    "/highlights",
    "/sec[\\-_]*filing",
    "/credit[\\-_]*rating",
    "/analyst",
    "/research",
    "/email[\\-_]*alert",
    "/subsidiar"
  ]

  /** `IN_SCOPE_OVERRIDES`, app.py lines 408-421 (12 patterns). */
  const InScopeOverrides: seq<string> := [
    "sec[\\s\\-_]*filing",
    "email[\\s\\-_]*alert",
    "privacy[\\s\\-_]*notice",
    "subsidiar",
    "credit[\\s\\-_]*rating",
    "analyst[\\s\\-_]*report",
    "research[\\s\\-_]*report",
    "research[\\s\\-_]*analyst",
    "investor[\\s\\-_]*relation",
    "/ir/",
    "/investors/",
    "annual[\\s\\-_]*general[\\s\\-_]*meeting"
  ]
}
