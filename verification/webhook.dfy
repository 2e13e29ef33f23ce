/** `build_webhook_url` of app/main.py: the public base address with its
    trailing slashes removed, followed by the webhook path. */
module Webhook {
  import opened Text

  function BuildWebhookUrl(base: string, path: string): (r: string)
    ensures |path| <= |r| && r[|r| - |path|..] == path
    ensures var head := r[..|r| - |path|];
            && head <= base
            && (forall i :: |head| <= i < |base| ==> base[i] == '/')
            && (|head| == 0 || head[|head| - 1] != '/')
  {
    RStripSlashes(base) + path
  }

  /** However many slashes end the base, the address is the same. */
  lemma TrailingSlashesIgnored(base: string, path: string, n: nat)
    ensures BuildWebhookUrl(base + Repeat('/', n), path) == BuildWebhookUrl(base, path)
  {
    TrimEndIgnoresSuffix(base, Repeat('/', n), IsSlash);
  }

  /** A base without a trailing slash is joined to the path as it is. */
  lemma PlainBaseIsConcatenated(base: string, path: string)
    requires base == "" || !IsSlash(base[|base| - 1])
    ensures BuildWebhookUrl(base, path) == base + path
  {
  }

  lemma ExampleComAddresses()
    ensures BuildWebhookUrl("https://example.com/", "/webhook") == "https://example.com/webhook"
    ensures BuildWebhookUrl("https://example.com", "/webhook") == "https://example.com/webhook"
  {
    TrailingSlashesIgnored("https://example.com", "/webhook", 1);
    assert "https://example.com" + Repeat('/', 1) == "https://example.com/";
    PlainBaseIsConcatenated("https://example.com", "/webhook");
  }
}
