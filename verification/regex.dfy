/**
 The Python regular-expression engine is not modelled. A `Search` stands for
 `re.search(pattern, text)` under fixed flags: it answers whether the pattern
 matches somewhere in the text, and answers false for a pattern that does not
 compile (the source skips those).
 */
module Regex {

  type Search = (string, string) -> bool
}
