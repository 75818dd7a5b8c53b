/** The permanently blocked object-storage hosts (`is_blocked_domain`). */
module Blocking {
  import opened Text
  import Url

  const AlwaysBlocked: set<string> := {"s3.amazonaws.com", "amazonaws.com"}

  /** A host is on `b` when it equals `b` or is a subdomain of it. */
  predicate OnDomain(host: string, b: string) {
    host == b || EndsWith(host, "." + b)
  }

  function Host(url: string): string {
    Lower(Url.Split(url).netloc)
  }

  /** `is_blocked_domain(url)`: the lower-cased network location is on a blocked domain. */
  function IsBlocked(url: string): (r: bool)
    ensures r <==> exists b :: b in AlwaysBlocked && OnDomain(Host(url), b)
  {
    var host := Host(url);
    assert "s3.amazonaws.com" in AlwaysBlocked && "amazonaws.com" in AlwaysBlocked;
    OnDomain(host, "s3.amazonaws.com") || OnDomain(host, "amazonaws.com")
  }

  lemma EndsWithSuffix(h: string, x: string, y: string)
    requires EndsWith(h, x + y)
    ensures EndsWith(h, y)
  {
    assert h[|h| - |y|..] == h[|h| - |x + y|..][|x|..];
  }

  /** A subdomain of a subdomain of `d`, and the subdomain itself, are on `d`. */
  lemma SubdomainOn(host: string, name: string, d: string)
    requires OnDomain(host, name + "." + d)
    ensures OnDomain(host, d)
  {
    var sub := name + "." + d;
    assert sub == (name + ".") + d;
    if host == sub {
      assert host[|host| - |"." + d|..] == "." + d;
    } else {
      assert "." + sub == ("." + name) + ("." + d);
      EndsWithSuffix(host, "." + name, "." + d);
    }
  }

  lemma S3UnderAmazonaws(host: string)
    requires OnDomain(host, "s3.amazonaws.com")
    ensures OnDomain(host, "amazonaws.com")
  {
    assert "s3" + "." + "amazonaws.com" == "s3.amazonaws.com";
    SubdomainOn(host, "s3", "amazonaws.com");
  }

  /**
   The `s3.amazonaws.com` entry adds nothing: a URL is blocked exactly when its
   host is `amazonaws.com` or one of its subdomains.
   */
  lemma BlockedIffAmazonaws(url: string)
    ensures IsBlocked(url) <==> OnDomain(Host(url), "amazonaws.com")
  {
    var host := Host(url);
    if OnDomain(host, "s3.amazonaws.com") {
      S3UnderAmazonaws(host);
    }
  }
}
