/** Which replacement texts can never complete a given class name. Each fact is checked
    alignment by alignment: only alignments whose first shared character agrees need a witness,
    and each witness is one position where the two texts differ. */
module ClassOverlaps {
  import opened Absence

  /** No `bg-muted` inserted into a text can be part of a `bg-[#ffffff]/10`. */
  lemma BgFfffffSlash10VsBgMuted()
    ensures NoOverlap("bg-[#ffffff]/10", "bg-muted")
  {
    var p, r := "bg-[#ffffff]/10", "bg-muted";
    MissingFrom(r, 'b', 1, 8);
    MissingFrom(p, 'b', 1, 15);
    forall d | 0 <= d < |r| && r[d] == p[0] ensures !Agree(p, r, d) {
      assert d == 0; assert p[3] != r[3];
    }
    NoOverlapByAnchors(p, r);
  }

  /** No `text-foreground` inserted into a text can be part of a `text-dark-foreground`. */
  lemma TextDarkForegroundVsTextForeground()
    ensures NoOverlap("text-dark-foreground", "text-foreground")
  {
    var p, r := "text-dark-foreground", "text-foreground";
    MissingFrom(r, 't', 1, 3);
    MissingFrom(r, 't', 4, 15);
    MissingFrom(p, 't', 1, 3);
    MissingFrom(p, 't', 4, 20);
    forall d | 0 <= d < |r| && r[d] == p[0] ensures !Agree(p, r, d) {
      if d == 0 { assert p[5] != r[5]; }
      else { assert d == 3; assert p[1] != r[4]; }
    }
    forall j | 0 < j < |p| && p[j] == r[0] ensures !Agree(p, r, -j) {
      assert j == 3; assert p[4] != r[1];
    }
    NoOverlapByAnchors(p, r);
  }

  /** No `placeholder:text-muted-foreground` inserted into a text can be part of a `text-dark-foreground`. */
  lemma TextDarkForegroundVsPlaceholderTextMutedForeground()
    ensures NoOverlap("text-dark-foreground", "placeholder:text-muted-foreground")
  {
    var p, r := "text-dark-foreground", "placeholder:text-muted-foreground";
    MissingFrom(r, 't', 0, 12);
    MissingFrom(r, 't', 13, 15);
    MissingFrom(r, 't', 16, 19);
    MissingFrom(r, 't', 20, 33);
    MissingFrom(p, 'p', 1, 20);
    forall d | 0 <= d < |r| && r[d] == p[0] ensures !Agree(p, r, d) {
      if d == 12 { assert p[5] != r[17]; }
      else if d == 15 { assert p[1] != r[16]; }
      else { assert d == 19; assert p[2] != r[21]; }
    }
    NoOverlapByAnchors(p, r);
  }

  /** No `text-foreground` inserted into a text can be part of a `text-dark-primary`. */
  lemma TextDarkPrimaryVsTextForeground()
    ensures NoOverlap("text-dark-primary", "text-foreground")
  {
    var p, r := "text-dark-primary", "text-foreground";
    MissingFrom(r, 't', 1, 3);
    MissingFrom(r, 't', 4, 15);
    MissingFrom(p, 't', 1, 3);
    MissingFrom(p, 't', 4, 17);
    forall d | 0 <= d < |r| && r[d] == p[0] ensures !Agree(p, r, d) {
      if d == 0 { assert p[5] != r[5]; }
      else { assert d == 3; assert p[1] != r[4]; }
    }
    forall j | 0 < j < |p| && p[j] == r[0] ensures !Agree(p, r, -j) {
      assert j == 3; assert p[4] != r[1];
    }
    NoOverlapByAnchors(p, r);
  }

  /** No `placeholder:text-muted-foreground` inserted into a text can be part of a `text-dark-primary`. */
  lemma TextDarkPrimaryVsPlaceholderTextMutedForeground()
    ensures NoOverlap("text-dark-primary", "placeholder:text-muted-foreground")
  {
    var p, r := "text-dark-primary", "placeholder:text-muted-foreground";
    MissingFrom(r, 't', 0, 12);
    MissingFrom(r, 't', 13, 15);
    MissingFrom(r, 't', 16, 19);
    MissingFrom(r, 't', 20, 33);
    MissingFrom(p, 'p', 1, 10);
    MissingFrom(p, 'p', 11, 17);
    forall d | 0 <= d < |r| && r[d] == p[0] ensures !Agree(p, r, d) {
      if d == 12 { assert p[5] != r[17]; }
      else if d == 15 { assert p[1] != r[16]; }
      else { assert d == 19; assert p[2] != r[21]; }
    }
    forall j | 0 < j < |p| && p[j] == r[0] ensures !Agree(p, r, -j) {
      assert j == 10; assert p[11] != r[1];
    }
    NoOverlapByAnchors(p, r);
  }

  /** No `hover:ring-foreground/20` inserted into a text can be part of a `hover:ring-dark-primary/20`. */
  lemma HoverRingDarkPrimarySlash20VsHoverRingForegroundSlash20()
    ensures NoOverlap("hover:ring-dark-primary/20", "hover:ring-foreground/20")
  {
    var p, r := "hover:ring-dark-primary/20", "hover:ring-foreground/20";
    MissingFrom(r, 'h', 1, 24);
    MissingFrom(p, 'h', 1, 26);
    forall d | 0 <= d < |r| && r[d] == p[0] ensures !Agree(p, r, d) {
      assert d == 0; assert p[11] != r[11];
    }
    NoOverlapByAnchors(p, r);
  }

  /** No `focus:ring-foreground/50` inserted into a text can be part of a `hover:ring-dark-primary/20`. */
  lemma HoverRingDarkPrimarySlash20VsFocusRingForegroundSlash50()
    ensures NoOverlap("hover:ring-dark-primary/20", "focus:ring-foreground/50")
  {
    var p, r := "hover:ring-dark-primary/20", "focus:ring-foreground/50";
    MissingFrom(r, 'h', 0, 24);
    MissingFrom(p, 'f', 1, 26);
    NoOverlapByAnchors(p, r);
  }

  /** No `bg-muted` inserted into a text can be part of a `bg-white/10`. */
  lemma BgWhiteSlash10VsBgMuted()
    ensures NoOverlap("bg-white/10", "bg-muted")
  {
    var p, r := "bg-white/10", "bg-muted";
    MissingFrom(r, 'b', 1, 8);
    MissingFrom(p, 'b', 1, 11);
    forall d | 0 <= d < |r| && r[d] == p[0] ensures !Agree(p, r, d) {
      assert d == 0; assert p[3] != r[3];
    }
    NoOverlapByAnchors(p, r);
  }

  /** No `text-foreground` inserted into a text can be part of a `bg-white/10`. */
  lemma BgWhiteSlash10VsTextForeground()
    ensures NoOverlap("bg-white/10", "text-foreground")
  {
    var p, r := "bg-white/10", "text-foreground";
    MissingFrom(r, 'b', 0, 15);
    MissingFrom(p, 't', 1, 6);
    MissingFrom(p, 't', 7, 11);
    forall j | 0 < j < |p| && p[j] == r[0] ensures !Agree(p, r, -j) {
      assert j == 6; assert p[8] != r[2];
    }
    NoOverlapByAnchors(p, r);
  }

  /** No `text-muted-foreground` inserted into a text can be part of a `bg-white/10`. */
  lemma BgWhiteSlash10VsTextMutedForeground()
    ensures NoOverlap("bg-white/10", "text-muted-foreground")
  {
    var p, r := "bg-white/10", "text-muted-foreground";
    MissingFrom(r, 'b', 0, 21);
    MissingFrom(p, 't', 1, 6);
    MissingFrom(p, 't', 7, 11);
    forall j | 0 < j < |p| && p[j] == r[0] ensures !Agree(p, r, -j) {
      assert j == 6; assert p[8] != r[2];
    }
    NoOverlapByAnchors(p, r);
  }

  /** No `text-emerald-500` inserted into a text can be part of a `bg-white/10`. */
  lemma BgWhiteSlash10VsTextEmerald500()
    ensures NoOverlap("bg-white/10", "text-emerald-500")
  {
    var p, r := "bg-white/10", "text-emerald-500";
    MissingFrom(r, 'b', 0, 16);
    MissingFrom(p, 't', 1, 6);
    MissingFrom(p, 't', 7, 11);
    forall j | 0 < j < |p| && p[j] == r[0] ensures !Agree(p, r, -j) {
      assert j == 6; assert p[8] != r[2];
    }
    NoOverlapByAnchors(p, r);
  }

  /** No `border-border` inserted into a text can be part of a `bg-white/10`. */
  lemma BgWhiteSlash10VsBorderBorder()
    ensures NoOverlap("bg-white/10", "border-border")
  {
    var p, r := "bg-white/10", "border-border";
    MissingFrom(r, 'b', 1, 7);
    MissingFrom(r, 'b', 8, 13);
    MissingFrom(p, 'b', 1, 11);
    forall d | 0 <= d < |r| && r[d] == p[0] ensures !Agree(p, r, d) {
      if d == 0 { assert p[1] != r[1]; }
      else { assert d == 7; assert p[1] != r[8]; }
    }
    NoOverlapByAnchors(p, r);
  }

  /** No `bg-emerald-600` inserted into a text can be part of a `bg-white/10`. */
  lemma BgWhiteSlash10VsBgEmerald600()
    ensures NoOverlap("bg-white/10", "bg-emerald-600")
  {
    var p, r := "bg-white/10", "bg-emerald-600";
    MissingFrom(r, 'b', 1, 14);
    MissingFrom(p, 'b', 1, 11);
    forall d | 0 <= d < |r| && r[d] == p[0] ensures !Agree(p, r, d) {
      assert d == 0; assert p[3] != r[3];
    }
    NoOverlapByAnchors(p, r);
  }

  /** No `hover:bg-muted` inserted into a text can be part of a `hover:bg-[#ffffff]/10`. */
  lemma HoverBgFfffffSlash10VsHoverBgMuted()
    ensures NoOverlap("hover:bg-[#ffffff]/10", "hover:bg-muted")
  {
    var p, r := "hover:bg-[#ffffff]/10", "hover:bg-muted";
    MissingFrom(r, 'h', 1, 14);
    MissingFrom(p, 'h', 1, 21);
    forall d | 0 <= d < |r| && r[d] == p[0] ensures !Agree(p, r, d) {
      assert d == 0; assert p[9] != r[9];
    }
    NoOverlapByAnchors(p, r);
  }

  /** No `hover:shadow-foreground/10` inserted into a text can be part of a `hover:bg-[#ffffff]/10`. */
  lemma HoverBgFfffffSlash10VsHoverShadowForegroundSlash10()
    ensures NoOverlap("hover:bg-[#ffffff]/10", "hover:shadow-foreground/10")
  {
    var p, r := "hover:bg-[#ffffff]/10", "hover:shadow-foreground/10";
    MissingFrom(r, 'h', 1, 7);
    MissingFrom(r, 'h', 8, 26);
    MissingFrom(p, 'h', 1, 21);
    forall d | 0 <= d < |r| && r[d] == p[0] ensures !Agree(p, r, d) {
      if d == 0 { assert p[6] != r[6]; }
      else { assert d == 7; assert p[1] != r[8]; }
    }
    NoOverlapByAnchors(p, r);
  }

  /** No `shadow-foreground/20` inserted into a text can be part of a `hover:bg-[#ffffff]/10`. */
  lemma HoverBgFfffffSlash10VsShadowForegroundSlash20()
    ensures NoOverlap("hover:bg-[#ffffff]/10", "shadow-foreground/20")
  {
    var p, r := "hover:bg-[#ffffff]/10", "shadow-foreground/20";
    MissingFrom(r, 'h', 0, 1);
    MissingFrom(r, 'h', 2, 20);
    MissingFrom(p, 's', 1, 21);
    forall d | 0 <= d < |r| && r[d] == p[0] ensures !Agree(p, r, d) {
      assert d == 1; assert p[1] != r[2];
    }
    NoOverlapByAnchors(p, r);
  }

  /** No `bg-card` inserted into a text can be part of a `hover:bg-[#ffffff]/10`. */
  lemma HoverBgFfffffSlash10VsBgCard()
    ensures NoOverlap("hover:bg-[#ffffff]/10", "bg-card")
  {
    var p, r := "hover:bg-[#ffffff]/10", "bg-card";
    MissingFrom(r, 'h', 0, 7);
    MissingFrom(p, 'b', 1, 6);
    MissingFrom(p, 'b', 7, 21);
    forall j | 0 < j < |p| && p[j] == r[0] ensures !Agree(p, r, -j) {
      assert j == 6; assert p[9] != r[3];
    }
    NoOverlapByAnchors(p, r);
  }

  /** No `border-foreground/50` inserted into a text can be part of a `hover:bg-[#ffffff]/10`. */
  lemma HoverBgFfffffSlash10VsBorderForegroundSlash50()
    ensures NoOverlap("hover:bg-[#ffffff]/10", "border-foreground/50")
  {
    var p, r := "hover:bg-[#ffffff]/10", "border-foreground/50";
    MissingFrom(r, 'h', 0, 20);
    MissingFrom(p, 'b', 1, 6);
    MissingFrom(p, 'b', 7, 21);
    forall j | 0 < j < |p| && p[j] == r[0] ensures !Agree(p, r, -j) {
      assert j == 6; assert p[7] != r[1];
    }
    NoOverlapByAnchors(p, r);
  }

  /** No `border-foreground/40` inserted into a text can be part of a `hover:bg-[#ffffff]/10`. */
  lemma HoverBgFfffffSlash10VsBorderForegroundSlash40()
    ensures NoOverlap("hover:bg-[#ffffff]/10", "border-foreground/40")
  {
    var p, r := "hover:bg-[#ffffff]/10", "border-foreground/40";
    MissingFrom(r, 'h', 0, 20);
    MissingFrom(p, 'b', 1, 6);
    MissingFrom(p, 'b', 7, 21);
    forall j | 0 < j < |p| && p[j] == r[0] ensures !Agree(p, r, -j) {
      assert j == 6; assert p[7] != r[1];
    }
    NoOverlapByAnchors(p, r);
  }

  /** No `border-foreground/20` inserted into a text can be part of a `hover:bg-[#ffffff]/10`. */
  lemma HoverBgFfffffSlash10VsBorderForegroundSlash20()
    ensures NoOverlap("hover:bg-[#ffffff]/10", "border-foreground/20")
  {
    var p, r := "hover:bg-[#ffffff]/10", "border-foreground/20";
    MissingFrom(r, 'h', 0, 20);
    MissingFrom(p, 'b', 1, 6);
    MissingFrom(p, 'b', 7, 21);
    forall j | 0 < j < |p| && p[j] == r[0] ensures !Agree(p, r, -j) {
      assert j == 6; assert p[7] != r[1];
    }
    NoOverlapByAnchors(p, r);
  }

  /** No `border-border` inserted into a text can be part of a `hover:bg-[#ffffff]/10`. */
  lemma HoverBgFfffffSlash10VsBorderBorder()
    ensures NoOverlap("hover:bg-[#ffffff]/10", "border-border")
  {
    var p, r := "hover:bg-[#ffffff]/10", "border-border";
    MissingFrom(r, 'h', 0, 13);
    MissingFrom(p, 'b', 1, 6);
    MissingFrom(p, 'b', 7, 21);
    forall j | 0 < j < |p| && p[j] == r[0] ensures !Agree(p, r, -j) {
      assert j == 6; assert p[7] != r[1];
    }
    NoOverlapByAnchors(p, r);
  }

  /** No `hover:text-foreground` inserted into a text can be part of a `text-dark-primary`. */
  lemma TextDarkPrimaryVsHoverTextForeground()
    ensures NoOverlap("text-dark-primary", "hover:text-foreground")
  {
    var p, r := "text-dark-primary", "hover:text-foreground";
    MissingFrom(r, 't', 0, 6);
    MissingFrom(r, 't', 7, 9);
    MissingFrom(r, 't', 10, 21);
    MissingFrom(p, 'h', 1, 17);
    forall d | 0 <= d < |r| && r[d] == p[0] ensures !Agree(p, r, d) {
      if d == 6 { assert p[5] != r[11]; }
      else { assert d == 9; assert p[1] != r[10]; }
    }
    NoOverlapByAnchors(p, r);
  }
}
