/** The site layout's header and footer rules, and the gate in front of the
    admin pages. */
module Router {
  import opened Wrappers
  import opened Text

  /** `hideHeaderFooter`: any path starting with `/admin`. */
  predicate HidesHeaderAndFooter(path: string) {
    StartsWith(path, "/admin")
  }

  /** `hideOnlyFooter`: exactly the quiz and reservation pages. */
  predicate HidesOnlyFooter(path: string) {
    path == "/bilgi-yarismasi" || path == "/rezervasyon"
  }

  /** The header is drawn unless the path lies under `/admin`; that every
      `/admin` sub-path hides it is `AdminSubpathsHideBoth`. */
  function HeaderShown(path: string): (shown: bool)
    ensures shown <==> !(|path| >= 6 && path[..6] == "/admin")
  {
    !HidesHeaderAndFooter(path)
  }

  function FooterShown(path: string): (shown: bool)
    ensures shown <==> HeaderShown(path) && path != "/bilgi-yarismasi" && path != "/rezervasyon"
  {
    !HidesHeaderAndFooter(path) && !HidesOnlyFooter(path)
  }

  /** The prefix test also catches paths that merely begin like the admin area. */
  lemma PrefixMatchExamples()
    ensures !HeaderShown("/administrator") && !FooterShown("/administrator")
    ensures !HeaderShown("/admin/login")
    ensures HeaderShown("/") && FooterShown("/")
  {
    assert "/administrator"[..6] == "/admin";
    assert "/admin/login"[..6] == "/admin";
  }

  /** The footer rule is an exact match: a trailing slash or a sub-path shows it. */
  lemma ExactFooterMatchExamples()
    ensures HeaderShown("/rezervasyon") && !FooterShown("/rezervasyon")
    ensures FooterShown("/rezervasyon/")
    ensures FooterShown("/rezervasyon/x")
    ensures HeaderShown("/bilgi-yarismasi") && !FooterShown("/bilgi-yarismasi")
  {
    assert "/rezervasyon"[..6][1] == 'r';
    assert "/rezervasyon/"[..6][1] == 'r';
    assert "/rezervasyon/x"[..6][1] == 'r';
    assert "/bilgi-yarismasi"[..6][1] == 'b';
  }

  /** Any path below `/admin` hides both. */
  lemma AdminSubpathsHideBoth(rest: string)
    ensures !HeaderShown("/admin" + rest) && !FooterShown("/admin" + rest)
  {
    assert ("/admin" + rest)[..6] == "/admin";
  }

  /** What `ProtectedAdminRoute` does. */
  datatype Gate = RenderChildren | Redirect(to: string)

  /** The stored `adminData`: rendered when present and non-empty, otherwise
      the browser is sent to the login page. */
  function ProtectedAdminRoute(adminData: Option<string>): (g: Gate)
    ensures g == RenderChildren <==> adminData.Some? && adminData.value != ""
    ensures g != RenderChildren ==> g == Redirect("/admin/login")
  {
    if adminData.None? || adminData.value == "" then Redirect("/admin/login") else RenderChildren
  }
}
