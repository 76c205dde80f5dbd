/** The parsed document the GiNZA helpers work on, reduced to what they read
    and write: each token's index, head index, part of speech, dependency
    label and Sudachi part-of-speech detail, plus the per-document attributes
    the bunsetu helpers store. */
module Docs {
  import opened Wrappers

  /** One token: `t.i`, `t.head.i`, `t.pos_`, `t.dep_` and `t._.pos_detail`. */
  datatype Token = Token(i: nat, head: nat, pos: string, dep: string, posDetail: string)

  /** A bunsetu begin/inside label. */
  datatype BI = B | I

  /** The bunsetu position types `set_bunsetu_bi_type` assigns. */
  datatype PositionType = ROOT | NO_HEAD | SEM_HEAD | FUNC | CONT | SYN_HEAD

  /** Token k sits at index k, and every head is a token of the document. */
  predicate WellFormed(tokens: seq<Token>)
  {
    forall k :: 0 <= k < |tokens| ==> tokens[k].i == k && tokens[k].head < |tokens|
  }

  predicate OccursAt(s: string, sub: string, k: nat)
  {
    k + |sub| <= |s| && s[k..k + |sub|] == sub
  }

  /** `s.find(sub) >= 0`: sub occurs somewhere in s. */
  predicate Contains(s: string, sub: string)
  {
    exists k: nat :: k <= |s| && OccursAt(s, sub, k)
  }

  /** `s.endswith(suffix)`. */
  predicate EndsWith(s: string, suffix: string)
  {
    |suffix| <= |s| && s[|s| - |suffix|..] == suffix
  }

  /** A document: its tokens, whose dependency labels the helpers may edit,
      and the user-data and extension attributes they set. */
  class Doc {
    var tokens: seq<Token>
    /** `doc.user_data["bunsetu_heads"]`, None while unset. */
    var bunsetuHeads: Option<seq<nat>>
    /** `doc.user_data["bunsetu_bi_labels"]`, None while unset. */
    var bunsetuBiLabels: Option<seq<BI>>
    /** `doc._.clauses`, only ever set to the empty list here. */
    var clauses: Option<seq<nat>>
    /** `doc._.bunsetu_bi_label`. */
    var bunsetuBiLabel: Option<seq<BI>>
    /** `doc._.bunsetu_position_type`. */
    var bunsetuPositionType: Option<seq<PositionType>>

    constructor(tokens: seq<Token>)
      ensures this.tokens == tokens
      ensures bunsetuHeads == None && bunsetuBiLabels == None
      ensures clauses == None && bunsetuBiLabel == None && bunsetuPositionType == None
    {
      this.tokens := tokens;
      bunsetuHeads := None;
      bunsetuBiLabels := None;
      clauses := None;
      bunsetuBiLabel := None;
      bunsetuPositionType := None;
    }
  }
}
