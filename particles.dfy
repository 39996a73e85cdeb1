/** Particle background (script.js lines 198-226): a fixed number of
    `particle` divs, chosen from the viewport width, appended once. */
module Particles {
  import opened Common
  import opened Dom

  /** 30 particles on a wide viewport, 15 otherwise. */
  function ParticleCount(innerWidth: int): (r: nat)
    ensures r == 30 || r == 15
    ensures r == 30 <==> innerWidth > 768
  {
    if innerWidth > 768 then 30 else 15
  }

  /** A particle as this model sees it; its random size, position and timing are not tracked. */
  const Particle: Node := Node("div", {"particle"}, None)

  /** `createParticles`: nothing without a `#particles` container, otherwise
      ParticleCount particles appended after the existing children. */
  method CreateParticles(container: Element?, innerWidth: int)
    modifies container
    ensures container != null ==>
      container.children == old(container.children) + seq(ParticleCount(innerWidth), _ => Particle)
  {
    if container == null {
      return;
    }
    var count := ParticleCount(innerWidth);
    for i := 0 to count
      invariant container.children == old(container.children) + seq(i, _ => Particle)
    {
      container.children := container.children + [Particle];
    }
  }
}
