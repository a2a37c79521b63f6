/** Which threads a listing asks for: a coarse filter inside the lister and an exact one on its results. */
module Filters {
  import opened Seqs

  datatype SubAgentSource =
    | Review
    | Compact
    | ThreadSpawn(parent: string, depth: int, nickname: Option<string>, role: Option<string>)
    | MemoryConsolidation
    | OtherAgent(tag: string)

  datatype SessionSource = Cli | VSCode | Exec | Mcp | SubAgent(agent: SubAgentSource) | Unknown

  datatype ThreadSourceKind =
    | CliKind
    | VsCodeKind
    | ExecKind
    | AppServerKind
    | SubAgentKind
    | SubAgentReviewKind
    | SubAgentCompactKind
    | SubAgentThreadSpawnKind
    | SubAgentOtherKind
    | UnknownKind

  const INTERACTIVE_SESSION_SOURCES: seq<SessionSource> := [Cli, VSCode]

  predicate NeedsPostFilter(kind: ThreadSourceKind) {
    !kind.CliKind? && !kind.VsCodeKind?
  }

  function InteractiveSources(kinds: seq<ThreadSourceKind>): seq<SessionSource> {
    if kinds == [] then []
    else
      match kinds[0]
      case CliKind => [Cli] + InteractiveSources(kinds[1..])
      case VsCodeKind => [VSCode] + InteractiveSources(kinds[1..])
      case _ => InteractiveSources(kinds[1..])
  }

  /** What the lister may return, where the empty list means everything, and what to filter its results by. */
  function ComputeSourceFilters(kinds: Option<seq<ThreadSourceKind>>)
    : (seq<SessionSource>, Option<seq<ThreadSourceKind>>)
  {
    if kinds.None? || kinds.value == [] then (INTERACTIVE_SESSION_SOURCES, None)
    else if exists i | 0 <= i < |kinds.value| :: NeedsPostFilter(kinds.value[i]) then ([], kinds)
    else (InteractiveSources(kinds.value), kinds)
  }

  predicate KindMatches(source: SessionSource, kind: ThreadSourceKind) {
    match kind
    case CliKind => source.Cli?
    case VsCodeKind => source.VSCode?
    case ExecKind => source.Exec?
    case AppServerKind => source.Mcp?
    case SubAgentKind => source.SubAgent?
    case SubAgentReviewKind => source.SubAgent? && source.agent.Review?
    case SubAgentCompactKind => source.SubAgent? && source.agent.Compact?
    case SubAgentThreadSpawnKind => source.SubAgent? && source.agent.ThreadSpawn?
    case SubAgentOtherKind => source.SubAgent? && source.agent.OtherAgent?
    case UnknownKind => source.Unknown?
  }

  predicate SourceKindMatches(source: SessionSource, filter: seq<ThreadSourceKind>) {
    exists i | 0 <= i < |filter| :: KindMatches(source, filter[i])
  }

  /** The lister's own check: a recorded source may be missing. */
  predicate Admits(allowed: seq<SessionSource>, recorded: Option<SessionSource>) {
    allowed == [] || (recorded.Some? && recorded.value in allowed)
  }

  predicate Passes(filter: Option<seq<ThreadSourceKind>>, source: SessionSource) {
    filter.None? || SourceKindMatches(source, filter.value)
  }

  // What a caller asks for, said from the side of the thread

  /** The kinds a thread with this source goes by. */
  function KindsOf(source: SessionSource): set<ThreadSourceKind> {
    match source
    case Cli => {CliKind}
    case VSCode => {VsCodeKind}
    case Exec => {ExecKind}
    case Mcp => {AppServerKind}
    case Unknown => {UnknownKind}
    case SubAgent(agent) =>
      match agent
      case Review => {SubAgentKind, SubAgentReviewKind}
      case Compact => {SubAgentKind, SubAgentCompactKind}
      case ThreadSpawn(_, _, _, _) => {SubAgentKind, SubAgentThreadSpawnKind}
      case MemoryConsolidation => {SubAgentKind}
      case OtherAgent(_) => {SubAgentKind, SubAgentOtherKind}
  }

  /** No kinds asked for stands for the interactive ones. */
  function Requested(kinds: Option<seq<ThreadSourceKind>>): set<ThreadSourceKind> {
    if kinds.None? || kinds.value == [] then {CliKind, VsCodeKind} else set k | k in kinds.value
  }

  predicate Wanted(kinds: Option<seq<ThreadSourceKind>>, source: SessionSource) {
    KindsOf(source) * Requested(kinds) != {}
  }

  lemma KindMatchesExactly(source: SessionSource, kind: ThreadSourceKind)
    ensures KindMatches(source, kind) <==> kind in KindsOf(source)
  {
  }

  lemma MatchesExactly(source: SessionSource, filter: seq<ThreadSourceKind>)
    ensures SourceKindMatches(source, filter) <==> KindsOf(source) * (set k | k in filter) != {}
  {
    if SourceKindMatches(source, filter) {
      var i :| 0 <= i < |filter| && KindMatches(source, filter[i]);
      KindMatchesExactly(source, filter[i]);
      assert filter[i] in KindsOf(source) * (set k | k in filter);
    }
    var both := KindsOf(source) * (set k | k in filter);
    if both != {} {
      var k :| k in both;
      var i :| 0 <= i < |filter| && filter[i] == k;
      KindMatchesExactly(source, filter[i]);
    }
  }

  lemma {:induction false} InteractiveSourcesAre(kinds: seq<ThreadSourceKind>)
    requires forall i | 0 <= i < |kinds| :: !NeedsPostFilter(kinds[i])
    ensures |InteractiveSources(kinds)| == |kinds|
    ensures forall s: SessionSource :: s in InteractiveSources(kinds) <==> SourceKindMatches(s, kinds)
  {
    if kinds != [] {
      InteractiveSourcesAre(kinds[1..]);
      forall s: SessionSource
        ensures s in InteractiveSources(kinds) <==> SourceKindMatches(s, kinds)
      {
        assert SourceKindMatches(s, kinds) <==> KindMatches(s, kinds[0]) || SourceKindMatches(s, kinds[1..]) by {
          MatchesHeadOrTail(s, kinds);
        }
      }
    }
  }

  lemma MatchesHeadOrTail(s: SessionSource, kinds: seq<ThreadSourceKind>)
    requires kinds != []
    ensures SourceKindMatches(s, kinds) <==> KindMatches(s, kinds[0]) || SourceKindMatches(s, kinds[1..])
  {
    if SourceKindMatches(s, kinds[1..]) {
      var i :| 0 <= i < |kinds[1..]| && KindMatches(s, kinds[1..][i]);
      assert KindMatches(s, kinds[i + 1]);
    }
    if i :| 0 < i < |kinds| && KindMatches(s, kinds[i]) {
      assert KindMatches(s, kinds[1..][i - 1]);
    }
  }

  /** Both filters together keep a thread exactly when it is wanted; a thread without a source counts as unknown. */
  lemma FiltersTogether(kinds: Option<seq<ThreadSourceKind>>, recorded: Option<SessionSource>)
    ensures var (allowed, filter) := ComputeSourceFilters(kinds);
            Admits(allowed, recorded) && Passes(filter, recorded.GetOr(Unknown))
            <==> Wanted(kinds, recorded.GetOr(Unknown))
  {
    var (allowed, filter) := ComputeSourceFilters(kinds);
    var source := recorded.GetOr(Unknown);
    if kinds.None? || kinds.value == [] {
      InteractiveAreWanted(source);
    } else {
      MatchesExactly(source, kinds.value);
      if allowed != [] {
        InteractiveSourcesAre(kinds.value);
        assert !SourceKindMatches(Unknown, kinds.value);
      }
    }
  }

  lemma InteractiveAreWanted(source: SessionSource)
    ensures source in INTERACTIVE_SESSION_SOURCES <==> KindsOf(source) * {CliKind, VsCodeKind} != {}
  {
    if source in INTERACTIVE_SESSION_SOURCES {
      var both := KindsOf(source) * {CliKind, VsCodeKind};
      assert CliKind in both || VsCodeKind in both;
    }
  }

  /** The lister never holds back a thread the second filter would keep. */
  lemma ListerHoldsNothingBack(kinds: Option<seq<ThreadSourceKind>>, source: SessionSource)
    requires Wanted(kinds, source)
    ensures Admits(ComputeSourceFilters(kinds).0, Some(source))
  {
    FiltersTogether(kinds, Some(source));
  }

  /** The lister is asked for everything exactly when some kind is no interactive one, and else for what is wanted. */
  lemma {:induction false} AllowedExactly(kinds: Option<seq<ThreadSourceKind>>)
    ensures var allowed := ComputeSourceFilters(kinds).0;
      && (allowed == [] <==> exists k :: k in Requested(kinds) && !k.CliKind? && !k.VsCodeKind?)
      && (allowed != [] ==> forall s :: s in allowed <==> Wanted(kinds, s))
  {
    var allowed := ComputeSourceFilters(kinds).0;
    if kinds.None? || kinds.value == [] {
      forall s ensures s in allowed <==> Wanted(kinds, s) {
        InteractiveAreWanted(s);
      }
    } else if i :| 0 <= i < |kinds.value| && NeedsPostFilter(kinds.value[i]) {
      assert kinds.value[i] in Requested(kinds);
    } else {
      InteractiveSourcesAre(kinds.value);
      forall s ensures s in allowed <==> Wanted(kinds, s) {
        MatchesExactly(s, kinds.value);
      }
    }
  }

  /** A spawned thread's own nickname and role take the place of those in its source. */
  function WithThreadSpawnAgentMetadata(source: SessionSource, nickname: Option<string>, role: Option<string>)
    : SessionSource
  {
    if nickname.None? && role.None? then source
    else
      match source
      case SubAgent(ThreadSpawn(parent, depth, oldNickname, oldRole)) =>
        SubAgent(ThreadSpawn(parent, depth,
                             if nickname.Some? then nickname else oldNickname,
                             if role.Some? then role else oldRole))
      case _ => source
  }

  predicate Spawned(source: SessionSource) {
    source.SubAgent? && source.agent.ThreadSpawn?
  }

  /** Only spawned threads change, and of them only nickname and role: a given one wins, else the old one stays. */
  lemma {:induction false} MetadataExactly(source: SessionSource, nickname: Option<string>, role: Option<string>)
    ensures var r := WithThreadSpawnAgentMetadata(source, nickname, role);
      && (!Spawned(source) ==> r == source)
      && (Spawned(source) ==>
            && Spawned(r) && r.agent.parent == source.agent.parent && r.agent.depth == source.agent.depth
            && r.agent.nickname == (if nickname.Some? then nickname else source.agent.nickname)
            && r.agent.role == (if role.Some? then role else source.agent.role))
  {
  }

  lemma MetadataKeepsKinds(source: SessionSource, nickname: Option<string>, role: Option<string>)
    ensures KindsOf(WithThreadSpawnAgentMetadata(source, nickname, role)) == KindsOf(source)
  {
  }
}
