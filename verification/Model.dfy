/** Options, text, and the normalized signal shared by analyzers, rules and scoring. */
module Model {

  datatype Option<+T> = None | Some(value: T)

  function Min(a: nat, b: nat): nat { if a < b then a else b }

  // ----- Text -----

  predicate IsSpace(c: char) {
    c in "\t\n\r " || c == '\U{0B}' || c == '\U{0C}' || c == '\U{85}' || c == '\U{A0}' || c == '\U{1680}'
    || '\U{2000}' <= c <= '\U{200A}' || c == '\U{2028}' || c == '\U{2029}' || c == '\U{202F}' || c == '\U{205F}'
    || c == '\U{3000}'
  }

  /** Nothing is left after trimming surrounding white space. */
  predicate Blank(s: string) {
    forall i | 0 <= i < |s| :: IsSpace(s[i])
  }

  /** The lower-case mapping of single characters that Unicode defines. Nothing is assumed of it. */
  const LowerCase: char -> char

  /** Lower-casing maps every character by itself. */
  function ToLower(s: string): (r: string)
    ensures |r| == |s|
  {
    seq(|s|, i requires 0 <= i < |s| => LowerCase(s[i]))
  }

  predicate HasPrefix(s: string, prefix: string) {
    prefix <= s
  }

  predicate HasSuffix(s: string, suffix: string) {
    |suffix| <= |s| && s[|s| - |suffix|..] == suffix
  }

  predicate Contains(s: string, part: string) {
    exists i {:trigger s[i..]} | 0 <= i <= |s| :: part <= s[i..]
  }

  /** Bytes of the UTF-8 encoding. */
  function ByteLength(s: string): nat {
    if s == [] then 0
    else
      var c := s[|s| - 1];
      ByteLength(s[..|s| - 1]) +
      (if c < '\U{80}' then 1 else if c < '\U{800}' then 2 else if c < '\U{10000}' then 3 else 4)
  }

  // ----- Signals -----

  const SIGNAL_TYPES: set<string> := {
    "response_header", "cookie", "script_url", "network_request", "network_response", "network_transaction",
    "form_submission", "dom_selector", "iframe_url", "js_global", "dns_record", "tls_property", "redirect",
    "page_content", "resource_host"
  }

  /** One observation. The confidence is the analyzer's certainty in it. */
  datatype Signal = Signal(kind: string, source: string, key: string, value: string, url: string, confidence: real)

  predicate ValidSignal(s: Signal) {
    && s.kind in SIGNAL_TYPES
    && !Blank(s.source)
    && !Blank(s.key)
    && 0.0 <= s.confidence <= 1.0
  }
}
