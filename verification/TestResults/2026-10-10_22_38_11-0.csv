TestResult.DisplayName,TestResult.Outcome,TestResult.Duration,TestResult.ResourceCount,RandomSeed
ApiLivros.SavedBookFoundById (correctness),Passed,00:00:00.3612350,611359,3
ApiLivros.SavedBookFoundById (well-formedness),Passed,00:00:00.1910003,75808,3
