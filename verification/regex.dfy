/**
 * The regular-expression engine the auditor relies on, kept abstract: which
 * pattern strings compile, and which strings a pattern matches as a whole
 * (Python's `re.compile` succeeding and `Pattern.fullmatch` returning a match).
 * A pattern that does not compile is one on which `re.compile` raises `re.error`.
 */
module Regex {

  datatype Engine = Engine(compiles: string -> bool, fullMatch: (string, string) -> bool)
}
