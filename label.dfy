/** `shortenCoreLabel`: the head-up display shows the focused paper's title
    cut to 60 characters, an ellipsis marking the cut. */
module CoreLabel {

  const MAX_CHARS: nat := 60
  const ELLIPSIS: string := "..."

  function ShortenCoreLabel(t: string): (r: string)
    ensures |r| <= MAX_CHARS
    ensures |t| <= MAX_CHARS ==> r == t
    ensures |t| > MAX_CHARS ==> |r| == MAX_CHARS && r[..MAX_CHARS - 3] == t[..MAX_CHARS - 3]
                                 && r[MAX_CHARS - 3..] == ELLIPSIS
  {
    if t == "" then ""
    else if |t| <= MAX_CHARS then t
    else t[..MAX_CHARS - 3] + ELLIPSIS
  }

  /** Shortening a label that was already shortened changes nothing. */
  lemma ShortenIdempotent(t: string)
    ensures ShortenCoreLabel(ShortenCoreLabel(t)) == ShortenCoreLabel(t)
  {
  }

  /** Two titles that agree on their first 57 characters and are both too
      long show the same label. */
  lemma ShortenKeepsOnlyPrefix(t: string, u: string)
    requires |t| > MAX_CHARS && |u| > MAX_CHARS
    requires t[..MAX_CHARS - 3] == u[..MAX_CHARS - 3]
    ensures ShortenCoreLabel(t) == ShortenCoreLabel(u)
  {
  }
}
