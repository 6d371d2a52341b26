/** The two host agents and where each keeps its skills. */
module AgentTargets {

  datatype AgentTarget = Codex | ClaudeCode

  const HOSTS: seq<AgentTarget> := [Codex, ClaudeCode]

  function Name(target: AgentTarget): string {
    match target
    case Codex => "codex"
    case ClaudeCode => "claude-code"
  }

  function InstalledRoot(target: AgentTarget): string {
    match target
    case Codex => ".agents/skills"
    case ClaudeCode => ".claude/skills"
  }
}
