/** The status shown in the header's badge. */
module Header {
  import opened Optional
  import opened ApiTypes

  const HealthyStatus := "healthy"

  datatype HealthStatus = Healthy | Unhealthy | Loading

  /** Loading while the check is in flight; otherwise healthy only for a
      response whose status is exactly "healthy". */
  function GetHealthStatus(healthLoading: bool, healthData: Option<HealthResponse>): (s: HealthStatus)
    ensures s.Loading? <==> healthLoading
    ensures s.Healthy? <==> !healthLoading && healthData.Some? && healthData.value.status == HealthyStatus
  {
    if healthLoading then Loading
    else if healthData.Some? && healthData.value.status == HealthyStatus then Healthy
    else Unhealthy
  }

  /** A missing response and any other status, even "Healthy", show as unhealthy. */
  lemma UnhealthyCases(service: string, message: string)
    ensures GetHealthStatus(false, None) == Unhealthy
    ensures GetHealthStatus(false, Some(HealthResponse("Healthy", service, message))) == Unhealthy
    ensures GetHealthStatus(false, Some(HealthResponse("degraded", service, message))) == Unhealthy
  {
  }
}
