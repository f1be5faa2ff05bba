/** The reply-quote preview (public/script.js): the quoted message's content, with media
    replaced by a label, cut to fifty characters plus an ellipsis. The same rule produces the
    input placeholder while composing a reply and the quote line of the rendered reply. */
module Preview {

  const ImageLabel: string := "[Image]"
  const VoiceLabel: string := "[Voice Message]"

  /** Previews keep at most this many characters of the content. */
  const Limit: nat := 50
  const Ellipsis: string := "..."

  /** The quoted content for a message of type `kind`: media becomes its label. */
  function Substitute(kind: string, content: string): (r: string)
    ensures kind == "image" ==> r == ImageLabel
    ensures kind == "voice" ==> r == VoiceLabel
    ensures kind != "image" && kind != "voice" ==> r == content
  {
    if kind == "image" then ImageLabel
    else if kind == "voice" then VoiceLabel
    else content
  }

  /** `s.length > 50 ? s.substring(0, 50) + '...' : s`. */
  function Truncate(s: string): (r: string)
    ensures |r| <= Limit + |Ellipsis|
    ensures |s| <= Limit ==> r == s
    ensures |s| > Limit ==> |r| == Limit + |Ellipsis| && r[..Limit] == s[..Limit] && r[Limit..] == Ellipsis
  {
    if |s| > Limit then s[..Limit] + Ellipsis else s
  }

  /** The preview a quote shows for content `content` of type `kind`. */
  function QuotePreview(kind: string, content: string): (r: string)
    ensures |r| <= 53
  {
    Truncate(Substitute(kind, content))
  }

  /** A preview is a prefix of the substituted content, followed by the ellipsis exactly when
      something was cut. */
  lemma PreviewShape(kind: string, content: string)
    ensures var q := Substitute(kind, content); var r := QuotePreview(kind, content);
      || (|q| <= Limit && r == q)
      || (|q| > Limit && |r| == Limit + |Ellipsis| && r == q[..Limit] + Ellipsis)
  {
  }

  /** Cutting a preview again changes nothing: a cut preview keeps its first fifty characters,
      which are the content's. */
  lemma TruncateIdempotent(s: string)
    ensures Truncate(Truncate(s)) == Truncate(s)
  {
    if |s| > Limit {
      var r := Truncate(s);
      assert r[..Limit] == s[..Limit];
      assert r[..Limit] + Ellipsis == r;
    }
  }

  /** Substituting a second time changes nothing: the labels are themselves short and carry
      no type, and the message type is unchanged. */
  lemma SubstituteIdempotent(kind: string, content: string)
    ensures Substitute(kind, Substitute(kind, content)) == Substitute(kind, content)
  {
  }

  /** `replyToMessage` already substitutes the quoted content when it builds `replyToData`, and
      `addReply` substitutes again before cutting: the placeholder the sender sees while
      composing and the quote line every receiver renders show the same preview. */
  lemma PlaceholderMatchesQuote(kind: string, content: string)
    ensures Truncate(Substitute(kind, content)) == QuotePreview(kind, Substitute(kind, content))
  {
    SubstituteIdempotent(kind, content);
  }

  /** The media labels are short enough to show in full. */
  lemma LabelsShowInFull(kind: string, content: string)
    requires kind == "image" || kind == "voice"
    ensures QuotePreview(kind, content) == Substitute(kind, content)
  {
  }
}
