/**
 * The per-site markup table (`boorus`), the host lookup `getSiteSyntax` and
 * the link formatter `wrapLink`.
 */
module SiteSyntax {
  import opened Wrappers

  /** The markup dialect a site's comment box understands. */
  datatype Syntax = Textile | Markdown

  /** One entry of the site table: the hosts a site is served from and its dialect. */
  datatype Booru = Booru(name: string, booruDomains: seq<string>, syntax: Syntax)

  const DomainError := "Unable to match domain"

  /** The site table, in the order its entries are visited. */
  const Boorus: seq<Booru> := [
    Booru("ponybooru", ["ponybooru.org"], Markdown),
    Booru("ponerpics", ["ponerpics.org", "ponerpics.com"], Textile),
    Booru("twibooru", ["twibooru.org", "twibooru.com"], Markdown),
    Booru("derpibooru", ["derpibooru.org", "trixiebooru.org", "ronxgr5zb4dkwdpt.onion"], Markdown)
  ]

  /** The same table keyed by host: what a lookup should answer, independent of visiting order. */
  const SyntaxByHost: map<string, Syntax> := map[
    "ponybooru.org" := Markdown,
    "ponerpics.org" := Textile,
    "ponerpics.com" := Textile,
    "twibooru.org" := Markdown,
    "twibooru.com" := Markdown,
    "derpibooru.org" := Markdown,
    "trixiebooru.org" := Markdown,
    "ronxgr5zb4dkwdpt.onion" := Markdown
  ]

  predicate Serves(table: seq<Booru>, i: int, host: string)
  {
    0 <= i < |table| && host in table[i].booruDomains
  }

  /** No host is listed under two different entries. */
  ghost predicate DomainsDisjoint(table: seq<Booru>)
  {
    forall i, j, host :: Serves(table, i, host) && Serves(table, j, host) ==> i == j
  }

  /**
   * Visit the entries in order and answer the dialect of the first one that
   * lists `host`; when none does, fail with the domain error.
   */
  function FindSyntax(table: seq<Booru>, host: string): (r: Result<Syntax, string>)
    ensures r.Failure? <==> forall i :: !Serves(table, i, host)
    ensures r.Failure? ==> r.error == DomainError
    ensures r.Success? ==> exists i :: Serves(table, i, host) && table[i].syntax == r.value
                                        && forall k :: 0 <= k < i ==> !Serves(table, k, host)
  {
    if |table| == 0 then Failure(DomainError)
    else if host in table[0].booruDomains then
      assert Serves(table, 0, host);
      Success(table[0].syntax)
    else
      var rest := FindSyntax(table[1..], host);
      assert forall i :: Serves(table[1..], i, host) <==> Serves(table, i + 1, host);
      if rest.Success? then
        var i :| Serves(table[1..], i, host) && table[1..][i].syntax == rest.value
                 && forall k :: 0 <= k < i ==> !Serves(table[1..], k, host);
        assert Serves(table, i + 1, host);
        assert forall k :: 0 <= k < i + 1 ==> !Serves(table, k, host) by {
          forall k | 0 < k < i + 1 ensures !Serves(table, k, host) {
            assert !Serves(table[1..], k - 1, host);
          }
        }
        rest
      else
        forall i | 0 < i < |table| ensures !Serves(table, i, host) {
          assert !Serves(table[1..], i - 1, host);
        }
        rest
  }

  /** `getSiteSyntax`: look the page's host up in the site table. */
  function GetSiteSyntax(host: string): (r: Result<Syntax, string>)
    ensures r.Success? <==> exists i :: Serves(Boorus, i, host)
  {
    FindSyntax(Boorus, host)
  }

  /** The site table lists every host under one entry only. */
  lemma BoorusDisjoint()
    ensures DomainsDisjoint(Boorus)
  {
  }

  /** In a table whose entries list disjoint hosts, any entry serving the host is the one found. */
  lemma LookupFindsServingEntry(table: seq<Booru>, i: int, host: string)
    requires DomainsDisjoint(table) && Serves(table, i, host)
    ensures FindSyntax(table, host) == Success(table[i].syntax)
  {
  }

  /**
   * In a table whose entries list disjoint hosts, the lookup finds the one
   * entry serving the host, whichever order the entries are visited in.
   */
  lemma LookupOrderIndependent(table: seq<Booru>, reordered: seq<Booru>, host: string)
    requires DomainsDisjoint(table)
    requires multiset(reordered) == multiset(table)
    ensures FindSyntax(reordered, host) == FindSyntax(table, host)
  {
    var r' := FindSyntax(reordered, host);
    if r'.Success? {
      var k :| Serves(reordered, k, host) && reordered[k].syntax == r'.value;
      assert reordered[k] in multiset(table);
      var i :| 0 <= i < |table| && table[i] == reordered[k];
      assert Serves(table, i, host);
      LookupFindsServingEntry(table, i, host);
    } else if FindSyntax(table, host).Success? {
      var i :| Serves(table, i, host);
      assert table[i] in multiset(reordered);
      var k :| 0 <= k < |reordered| && reordered[k] == table[i];
      assert Serves(reordered, k, host);
    }
  }

  /** The ordered lookup over the site table agrees with the host-keyed map. */
  lemma GetSiteSyntaxMatchesMap(host: string)
    ensures host in SyntaxByHost ==> GetSiteSyntax(host) == Success(SyntaxByHost[host])
    ensures host !in SyntaxByHost ==> GetSiteSyntax(host) == Failure(DomainError)
  {
    BoorusDisjoint();
    if host in SyntaxByHost {
      var i := if host == "ponybooru.org" then 0
               else if host in ["ponerpics.org", "ponerpics.com"] then 1
               else if host in ["twibooru.org", "twibooru.com"] then 2
               else 3;
      assert Serves(Boorus, i, host) && Boorus[i].syntax == SyntaxByHost[host];
      LookupFindsServingEntry(Boorus, i, host);
    } else {
      forall i | 0 <= i < |Boorus| ensures !Serves(Boorus, i, host) {
        assert forall d :: d in Boorus[i].booruDomains ==> d in SyntaxByHost;
      }
    }
  }

  /** `wrapLink`: the markup that embeds the image at `link` in the given dialect. */
  function WrapLink(syntax: Syntax, link: string): (r: string)
    ensures |r| == |link| + (if syntax.Textile? then 2 else 5)
    ensures syntax.Textile? ==> r[0] == '!' && r[|r| - 1] == '!'
    ensures syntax.Markdown? ==> r[..4] == "![](" && r[|r| - 1] == ')'
  {
    match syntax
    case Textile => "!" + link + "!"
    case Markdown => "![](" + link + ")"
  }

  /** Read the link back out of an embed written in the given dialect. */
  function UnwrapLink(syntax: Syntax, text: string): Option<string>
  {
    match syntax
    case Textile =>
      if 2 <= |text| && text[0] == '!' && text[|text| - 1] == '!'
      then Some(text[1..|text| - 1]) else None
    case Markdown =>
      if 5 <= |text| && text[..4] == "![](" && text[|text| - 1] == ')'
      then Some(text[4..|text| - 1]) else None
  }

  /** The embed markup loses nothing: the link can be read back from it. */
  lemma UnwrapWrap(syntax: Syntax, link: string)
    ensures UnwrapLink(syntax, WrapLink(syntax, link)) == Some(link)
  {
    var w := WrapLink(syntax, link);
    match syntax
    case Textile => assert w[1..|w| - 1] == link;
    case Markdown => assert w[..4] == "![](" && w[4..|w| - 1] == link;
  }

  /** Every text the reader accepts is the embed of the link it reads. */
  lemma WrapUnwrap(syntax: Syntax, text: string, link: string)
    requires UnwrapLink(syntax, text) == Some(link)
    ensures WrapLink(syntax, link) == text
  {
    match syntax
    case Textile => assert text == [text[0]] + text[1..|text| - 1] + [text[|text| - 1]];
    case Markdown => assert text == text[..4] + text[4..|text| - 1] + [text[|text| - 1]];
  }

  /** The two dialects never produce the same markup: the last character tells them apart. */
  lemma DialectsDistinct(link: string, link': string)
    ensures WrapLink(Textile, link) != WrapLink(Markdown, link')
  {
  }

  /**
   * The user script's `wrapLink(link)`: look the host up, then format. An
   * unknown host makes it throw the domain error.
   */
  function WrapLinkForHost(host: string, link: string): (r: Result<string, string>)
    ensures host in SyntaxByHost ==> r == Success(WrapLink(SyntaxByHost[host], link))
    ensures host !in SyntaxByHost ==> r == Failure(DomainError)
  {
    GetSiteSyntaxMatchesMap(host);
    match GetSiteSyntax(host)
    case Success(syntax) => Success(WrapLink(syntax, link))
    case Failure(e) => Failure(e)
  }
}
